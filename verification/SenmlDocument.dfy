/** Whole SenML-CBOR documents: what is serialized for a request is parsed back under the same request. */
module SenmlDocument {
  import opened Bytes
  import opened Data
  import opened Uri
  import opened Cbor
  import opened SenmlRecords
  import opened SenmlCborWriter
  import opened SenmlCborReader
  import opened SenmlCborRoundTrip
  import opened SenmlRebuild
  import opened SenmlCborCodec
  import Decimal

  function PathIn(uri: Option<Path>): Path
  {
    if uri.Some? then uri.value else []
  }

  // ----- what the serializer picks ------------------------------------------------------------

  /** The siblings that identifiers lead to, from container to container. */
  ghost predicate Leads(nodes: seq<Node>, ids: Path, found: seq<Node>)
    decreases |ids|
  {
    if ids == [] then found == nodes
    else exists n :: n in nodes && n.Container? && n.id == ids[0] && Leads(n.children, ids[1..], found)
  }

  /** On the way that identifiers lead, one of them is missing among siblings that are there. */
  ghost predicate Misses(nodes: seq<Node>, ids: Path)
    decreases |ids|
  {
    && ids != [] && nodes != []
    && ((forall n :: n in nodes ==> n.id != ids[0])
        || exists n :: n in nodes && n.Container? && n.id == ids[0] && Misses(n.children, ids[1..]))
  }

  /** The first identifier leads to one container at most. */
  lemma {:induction false} OnlyOneWay(nodes: seq<Node>, ids: Path, n: Node, at: nat, found: seq<Node>)
    requires ids != [] && Tidy(nodes, at) && n in nodes && n.Container? && n.id == ids[0]
    ensures Leads(nodes, ids, found) <==> Leads(n.children, ids[1..], found)
    ensures Misses(nodes, ids) <==> Misses(n.children, ids[1..])
  {
    assert forall m :: m in nodes && m.id == n.id ==> m == n;
    hide Tidy, DistinctIds;
  }

  lemma {:induction false} IndexMisses(nodes: seq<Node>, id: uint16)
    ensures IndexOf(nodes, id) == |nodes| ==> forall n :: n in nodes ==> n.id != id
  {
    if nodes != [] && nodes[0].id != id {
      IndexMisses(nodes[1..], id);
      assert forall n :: n in nodes <==> n == nodes[0] || n in nodes[1..];
    }
  }

  /** Tidy siblings of the upper levels are all of the kind of their level. */
  lemma {:induction false} UpperKinds(nodes: seq<Node>, at: nat)
    requires at <= 1 && Tidy(nodes, at) && nodes != []
    ensures Uniform(nodes) && nodes[0] in nodes && forall n :: n in nodes ==> HasKind(n, LevelKind(at)) && Tidy(n.children, at + 1)
  {
    forall n | n in nodes ensures HasKind(n, LevelKind(at)) && Tidy(n.children, at + 1) {
      assert TidyNode(n, at);
    }
    hide Tidy;
    assert nodes[0] in nodes;
  }

  /** Down to the instance asked for, the serializer goes where the identifiers of the request lead; it gives up exactly
      when one is missing, and stops early where there are no siblings. */
  lemma {:induction false} Descends(path: Path, desired: nat, nodes: seq<Node>, level: nat, at: nat, top: nat)
    requires 1 <= desired <= 4 && top == Min(desired - 1, 2) && desired - 1 <= |path| && at <= top && Tidy(nodes, at)
    ensures var (t, ids) := (FindAndCheck(path, desired, nodes, level), path[at..top]);
            && (Misses(nodes, ids) ==> t.None?)
            && (forall found :: Leads(nodes, ids, found) ==>
                  Tidy(found, top) && t == FindAndCheck(path, desired, found, if at == top then level else top + 1))
            && (Misses(nodes, ids) || (exists found :: Leads(nodes, ids, found)) || (t.Some? && t.value.nodes == []))
    decreases top - at
  {
    var ids := path[at..top];
    hide Tidy;
    if at == top || nodes == [] {
      assert at == top ==> Leads(nodes, ids, nodes);
    } else {
      var i := IndexOf(nodes, path[at]);
      UpperKinds(nodes, at);
      IndexMisses(nodes, path[at]);
      assert ids != [] && ids[0] == path[at];
      if i < |nodes| {
        var n := nodes[i];
        assert n in nodes && HasKind(n, LevelKind(at));
        assert ids[1..] == path[at + 1..top];
        assert FindAndCheck(path, desired, nodes, level) == FindAndCheck(path, desired, n.children, at + 2);
        hide FindAndCheck, Uniform, HasKind;
        Descends(path, desired, n.children, at + 2, at + 1, top);
        forall found: seq<Node> ensures Leads(nodes, ids, found) <==> Leads(n.children, ids[1..], found) {
          OnlyOneWay(nodes, ids, n, at, found);
        }
        OnlyOneWay(nodes, ids, n, at, []);
        hide Leads, Misses;
        var t := FindAndCheck(path, desired, n.children, at + 2);
        if !Misses(n.children, ids[1..]) && !(t.Some? && t.value.nodes == []) {
          var found :| Leads(n.children, ids[1..], found);
          assert Leads(nodes, ids, found);
        }
      } else {
        assert Misses(nodes, ids);
      }
    }
  }

  /** For a request for everything, an object or an object instance, the serializer picks exactly the siblings at the
      level below that the identifiers of the request lead to. It picks none when it comes to siblings that are not
      there, and gives up exactly when an identifier is missing. */
  lemma {:induction false} TargetExact(uri: Option<Path>, nodes: seq<Node>, at: nat)
    requires at <= |PathIn(uri)| <= 2 && Tidy(nodes, at)
    ensures var (t, ids, level) := (FindTarget(uri, nodes), PathIn(uri)[at..], |PathIn(uri)| + 1);
            && (t.None? <==> Misses(nodes, ids))
            && (forall found :: found != [] ==> (Leads(nodes, ids, found) <==> t == Some(Target(found, level))))
            && (t.Some? && t.value.nodes != [] ==> t.value.level == level && Tidy(t.value.nodes, |PathIn(uri)|))
  {
    var p := PathIn(uri);
    var (top, desired) := (|p|, |p| + 1);
    assert p[at..top] == p[at..];
    Descends(p, desired, nodes, desired, at, top);
    forall found: seq<Node> | Tidy(found, top) ensures FindAndCheck(p, desired, found, desired) == Some(Target(found, desired)) {
      LevelPicked(p, desired, found, desired);
    }
    hide Tidy, FindAndCheck, Leads, Misses;
  }

  /** Siblings of the desired level are all picked. */
  lemma {:induction false} LevelPicked(path: Path, desired: nat, nodes: seq<Node>, level: nat)
    requires 1 <= desired <= 3 && desired - 1 <= |path| && Tidy(nodes, desired - 1) && (desired == 1 ==> level == 1)
    ensures FindAndCheck(path, desired, nodes, level) == Some(Target(nodes, level))
  {
    if nodes != [] {
      if desired <= 2 {
        UpperKinds(nodes, desired - 1);
      } else {
        LowerKinds(nodes, 2);
      }
      hide Tidy;
    }
  }

  lemma {:induction false} LowerKinds(nodes: seq<Node>, at: nat)
    requires 2 <= at <= 3 && Tidy(nodes, at) && nodes != []
    ensures Uniform(nodes) && nodes[0] in nodes
    ensures forall n :: n in nodes ==> !IsUpper(n) && (n.Container? <==> HasKind(n, KMultiple)) && (n.Container? ==> at == 2)
  {
    forall n | n in nodes ensures !IsUpper(n) && (n.Container? <==> HasKind(n, KMultiple)) && (n.Container? ==> at == 2) {
      assert TidyNode(n, at);
    }
    hide Tidy;
    assert nodes[0] in nodes;
  }

  /** Siblings at the level below the request are picked as they are. */
  lemma {:induction false} TargetIsAll(uri: Option<Path>, nodes: seq<Node>)
    requires |PathIn(uri)| <= 2 && nodes != [] && Tidy(nodes, |PathIn(uri)|)
    ensures FindTarget(uri, nodes) == Some(Target(nodes, |PathIn(uri)| + 1))
  {
    TargetExact(uri, nodes, |PathIn(uri)|);
    assert Leads(nodes, PathIn(uri)[|PathIn(uri)|..], nodes);
  }

  /** What the serializer picks below one object is what the parser selects for the same request. */
  lemma {:induction false} PickedIsSelected(uri: Option<Path>, root: Node, found: seq<Node>)
    requires 1 <= |PathIn(uri)| <= 2 && TidyNode(root, 0) && found != []
    ensures FindTarget(uri, [root]) == Some(Target(found, |PathIn(uri)| + 1)) <==> Select(uri, [root]) == Some(found)
  {
    var p := PathIn(uri);
    OneTidy(root, 0);
    TargetExact(uri, [root], 0);
    assert p[0..] == p && (|p| == 1 ==> p[1..] == []);
    if root.id == p[0] {
      OnlyOneWay([root], p, root, 0, found);
      if |p| == 2 {
        var i := ChildIndex(root.children, p[1]);
        assert p[1..] == [p[1]] && [p[1]][1..] == [];
        ChildMisses(root.children, p[1]);
        if i < |root.children| {
          assert TidyNode(root.children[i], 1) by { assert root.children[i] in root.children; }
          OnlyOneWay(root.children, [p[1]], root.children[i], 1, found);
        }
      }
    }
    hide FindTarget, Tidy, Misses;
  }

  lemma {:induction false} ChildMisses(nodes: seq<Node>, id: uint16)
    ensures ChildIndex(nodes, id) == |nodes| ==> forall n :: n in nodes ==> n.id != id
  {
    if nodes != [] && nodes[0].id != id {
      ChildMisses(nodes[1..], id);
      assert forall n :: n in nodes <==> n == nodes[0] || n in nodes[1..];
    }
  }

  /** For a request for a resource or a resource instance the serializer picks, among the siblings that the identifiers
      of object and instance lead to: below a first multiple resource, the instances of the resource asked for, and
      without a multiple resource in the first place all of them. */
  lemma {:induction false} ResourcesPicked(p: Path, nodes: seq<Node>, at: nat, found: seq<Node>)
    requires 3 <= |p| <= 4 && at <= 2 && Tidy(nodes, at) && found != [] && Leads(nodes, p[at..2], found)
    ensures !found[0].Container? ==> FindTarget(Some(p), nodes) == Some(Target(found, if at == 2 then |p| else 3))
    ensures found[0].Container? ==>
              && (forall n :: n in found && n.Container? && n.id == p[2] ==> FindTarget(Some(p), nodes) == Some(Target(n.children, 4)))
              && ((forall n :: n in found && n.id == p[2] ==> !n.Container?) ==> FindTarget(Some(p), nodes).None?)
  {
    var level := if at == 2 then |p| else 3;
    hide Leads, Tidy, FindAndCheck;
    Descends(p, 4, nodes, |p|, at, 2);
    assert FindTarget(Some(p), nodes) == FindAndCheck(p, 4, found, level);
    AmongResources(p, found, level);
    hide FindTarget;
    forall n, m | n in found && m in found && n.id == m.id ensures n == m {
      SameNode(found, 2, n, m);
    }
  }

  lemma {:induction false} SameNode(nodes: seq<Node>, level: nat, n: Node, m: Node)
    requires Tidy(nodes, level) && n in nodes && m in nodes && n.id == m.id
    ensures n == m
  {
  }

  /** Among resources: all of them, or the instances of one. */
  lemma {:induction false} AmongResources(p: Path, found: seq<Node>, level: nat)
    requires 3 <= |p| <= 4 && Tidy(found, 2) && found != []
    ensures !found[0].Container? ==> FindAndCheck(p, 4, found, level) == Some(Target(found, level))
    ensures found[0].Container? ==>
              var i := IndexOf(found, p[2]);
              && FindAndCheck(p, 4, found, level) == (if i < |found| && found[i].Container? then Some(Target(found[i].children, 4)) else None)
              && (i == |found| ==> forall n :: n in found ==> n.id != p[2])
              && (i < |found| ==> found[i] in found)
  {
    LowerKinds(found, 2);
    assert found[0] in found;
    var i := IndexOf(found, p[2]);
    IndexMisses(found, p[2]);
    if found[0].Container? && i < |found| && found[i].Container? {
      assert found[i] in found && TidyNode(found[i], 2);
      InstancesPicked(p, found[i].children, 4);
    }
    hide Tidy;
  }

  /** Resource instances are all picked. */
  lemma {:induction false} InstancesPicked(p: Path, nodes: seq<Node>, level: nat)
    requires 3 <= |p| <= 4 && Tidy(nodes, 3)
    ensures FindAndCheck(p, 4, nodes, level) == Some(Target(nodes, level))
  {
    if nodes != [] {
      LowerKinds(nodes, 3);
    }
  }

  /** No request is served from siblings of which one is an object or an object instance and another is something
      else. */
  lemma {:induction false} MixedRefused(uri: Option<Path>, nodes: seq<Node>, a: Node, b: Node, kind: Kind)
    requires |PathIn(uri)| <= 4 && a in nodes && b in nodes && kind != KMultiple && HasKind(a, kind) && !HasKind(b, kind)
    ensures FindTarget(uri, nodes).None?
  {
  }

  // ----- the base name ------------------------------------------------------------------------

  lemma {:induction false} DigitsNotZero(n: nat)
    ensures 0 !in Decimal.Digits(n)
  {
    if n >= 10 {
      DigitsNotZero(n / 10);
    }
  }

  lemma {:induction false} TextNotZero(p: Path)
    ensures 0 !in Text(p)
  {
    if p != [] {
      TextNotZero(p[..|p| - 1]);
      DigitsNotZero(p[|p| - 1]);
    }
  }

  /** Base name and prefix of the names together are the text of the request and a slash. */
  lemma {:induction false} BaseAndParent(uri: Option<Path>, level: nat)
    requires |PathIn(uri)| <= 2 && |PathIn(uri)| < level
    ensures var base := BaseText(uri, level);
            && PlainBase(base) && InForce(base, []) + ParentText(base) == Text(PathIn(uri)) + [SLASH]
            && (base == [] <==> uri.None?)
  {
    var p := PathIn(uri);
    TextLength(p);
    TextNotZero(p);
    if p == [] {
      assert Text(p) == [];
    } else {
      var base := BaseText(uri, level);
      assert base == Text(p) + [SLASH] && base[|base| - 1] == SLASH;
      assert base + [] == base;
    }
    hide Text;
  }

  // ----- sizes --------------------------------------------------------------------------------

  /** Names stay short enough for their lengths to be written. */
  lemma {:induction false} ItemsSizable(nodes: seq<Node>, parent: seq<byte>, base: seq<byte>, level: nat)
    requires Tidy(nodes, level) && |base| <= MAX_STRING_LEN && |parent| <= 24 + 6 * level
    ensures SizableItems(Items(nodes, parent, true, base))
    decreases nodes
  {
    if nodes != [] {
      TidyTail(nodes, level);
      ItemsSizable(nodes[1..], parent, [], level);
      var n := nodes[0];
      Decimal.DigitsLength16(n.id);
      if !IsRecord(n) {
        ItemsSizable(n.children, parent + Decimal.Digits(n.id) + [SLASH], base, level + 1);
      }
    }
  }

  lemma {:induction false} ItemsLength(items: seq<Item>, base: seq<byte>, records: seq<Record>)
    requires SizableItems(items) && Reads(items, base, records)
    ensures |ItemsBytes(items)| >= 3 * |items|
    decreases items
  {
    if items != [] {
      SizablePairsOf(items[0]);
      PairsLength(Pairs(items[0]));
      hide Pairs, PairsBytes;
      ItemsLength(items[1..], NewBase(items[0], base), records[1..]);
    }
  }

  // ----- parsing a document -------------------------------------------------------------------

  /** A document whose items stand for records is parsed to these records. */
  lemma {:induction false} DocumentParses(uri: Option<Path>, items: seq<Item>, records: seq<Record>)
    requires |PathIn(uri)| <= 4 && SizableItems(items) && items != [] && |items| <= INT_MAX
    requires Reads(items, [], records)
    ensures IsRecords(records)
    ensures Parse(uri, DocumentBytes(items))
         == match AddAll([], records) case None => None case Some(parsed) => Select(uri, parsed)
  {
    hide ItemsBytes, HeadBytes, ReadHead, Reads, SizableItems, Select, AddAll;
    var n := |items|;
    var (head, buffer) := (HeadBytes(ARRAY, n), DocumentBytes(items));
    ItemsLength(items, [], records);
    assert Holds(buffer, 0, head + ItemsBytes(items));
    HoldsParts(buffer, 0, head, ItemsBytes(items));
    HoldsRest(buffer, 0, head);
    assert buffer[0..] == buffer;
    HeadRoundTrip(ARRAY, n, buffer[|head|..]);
    ReadsParse(buffer, |head|, items, [], records);
  }

  /** The containers around the answer are taken off again. */
  lemma {:induction false} SelectNested(uri: Option<Path>, nodes: seq<Node>)
    requires |PathIn(uri)| <= 2 && nodes != []
    ensures Select(uri, Nested(PathIn(uri), 0, nodes)) == Some(nodes)
  {
    var p := PathIn(uri);
    if |p| == 1 {
      assert p[1..] == [];
    } else if |p| == 2 {
      assert p[1..] == [p[1]] && p[1..][1..] == [];
      var inner := Nested(p[1..], 1, nodes);
      assert Nested(p[1..][1..], 2, nodes) == nodes;
      assert inner == [Container(p[1], KInstance, nodes)];
      assert ChildIndex(inner, p[1]) == 0;
    }
  }

  lemma {:induction false} FullReads(uri: Option<Path>, t: Target)
    requires |PathIn(uri)| <= 2 && IsPath(PathIn(uri))
    requires t.nodes != [] && t.level == |PathIn(uri)| + 1 && Tidy(t.nodes, |PathIn(uri)|)
    ensures var items := Document(uri, t);
            items != [] && SizableItems(items) && Reads(items, [], TreeRecords(t.nodes, PathIn(uri)))
  {
    hide Tidy, Text, Reads, Items, BaseText, ParentText, PlainBase, SizableItems;
    var (p, base) := (PathIn(uri), BaseText(uri, t.level));
    BaseAndParent(uri, t.level);
    ShortBase(base);
    ItemsSizable(t.nodes, ParentText(base), base, |p|);
    TreeReads(t.nodes, ParentText(base), base, [], p);
  }

  lemma {:induction false} ShortBase(base: seq<byte>)
    requires PlainBase(base)
    ensures |base| <= MAX_STRING_LEN && |ParentText(base)| <= 1
  {
  }

  /** A document that carries at least one node. */
  lemma {:induction false} FullDocument(uri: Option<Path>, t: Target)
    requires |PathIn(uri)| <= 2 && IsPath(PathIn(uri))
    requires t.nodes != [] && t.level == |PathIn(uri)| + 1 && Tidy(t.nodes, |PathIn(uri)|)
    ensures SizableItems(Document(uri, t))
    ensures |Document(uri, t)| <= INT_MAX ==>
              Parse(uri, DocumentBytes(Document(uri, t))) == Some(Normal(t.nodes, |PathIn(uri)|))
  {
    hide Tidy, Reads, Parse, Document, DocumentBytes, SizableItems, Select;
    var p := PathIn(uri);
    FullReads(uri, t);
    if |Document(uri, t)| <= INT_MAX {
      var records := TreeRecords(t.nodes, p);
      DocumentParses(uri, Document(uri, t), records);
      RebuildNested(p, 0, t.nodes);
      AddAllIsAddFrom([], records);
      SelectNested(uri, Normal(t.nodes, |p|));
    }
  }

  /** A document without nodes has at most the base name; it is refused unless the request was for the root. */
  lemma {:induction false} EmptyDocument(uri: Option<Path>, level: nat)
    requires |PathIn(uri)| <= 2 && IsPath(PathIn(uri))
    ensures var items := Document(uri, Target([], level));
            && SizableItems(items) && |items| <= 1
            && Parse(uri, DocumentBytes(items)) == if uri == Some([]) then Some([Undefined(MAX_ID)]) else None
  {
    var p := PathIn(uri);
    var items := Document(uri, Target([], level));
    if uri.None? {
      assert items == [];
      assert DocumentBytes([]) == [32 * ARRAY];
    } else {
      var base := if p == [] then [SLASH] else Text(p);
      BaseAlone(uri, level, base);
      var item := Item(base, [], None);
      var record := Record(p, None);
      TextLength(p);
      assert items == [item] && items[1..] == [];
      assert Reads(items, [], [record]) by { BaseReads(p, base); }
      DocumentParses(uri, items, [record]);
      assert [record][..0] == [];
      assert AddAll([], [record]) == AddTop([], record);
      hide Parse, DocumentBytes;
      SelectEmpty(uri);
    }
  }

  lemma {:induction false} BaseAlone(uri: Option<Path>, level: nat, base: seq<byte>)
    requires uri.Some? && |uri.value| <= 2
    requires base == if uri.value == [] then [SLASH] else Text(uri.value)
    ensures Document(uri, Target([], level)) == [Item(base, [], None)]
  {
    TextLength(uri.value);
    assert (Text(uri.value) + [SLASH])[..|Text(uri.value)|] == Text(uri.value);
  }

  lemma {:induction false} BaseReads(p: Path, base: seq<byte>)
    requires |p| <= 2 && IsPath(p) && base == if p == [] then [SLASH] else Text(p)
    ensures ReadsItem(Item(base, [], None), [], Record(p, None))
  {
    hide Text, FromText;
    TextLength(p);
    TextNotZero(p);
    assert base + [] == base;
    if p == [] { RootRoundTrip(); } else { TextRoundTrip(p); }
  }

  lemma {:induction false} SelectEmpty(uri: Option<Path>)
    requires uri.Some? && |uri.value| <= 2 && IsPath(uri.value)
    ensures var built := AddTop([], Record(uri.value, None));
            built.Some? && Select(uri, built.value) == if uri.value == [] then Some([Undefined(MAX_ID)]) else None
  {
    var p := uri.value;
    if |p| == 1 {
      assert p == [p[0]];
      RecordRebuilt([], 0, Container(p[0], KObject, []));
    } else if |p| == 2 {
      assert p == [p[0]] + [p[1]];
      RecordRebuilt([], 1, Container(p[1], KInstance, []));
      AddOutside([], 0, p[0], [p[1]], None);
      var inner := [Container(p[1], KInstance, [])];
      assert [] + inner == inner;
      assert AddRecord([], 1, [p[1]], None) == Some(inner);
      OnlyContainer(0, p[0], inner);
      assert ChildIndex(inner, p[1]) == 0;
      hide AddRecord, WithContainer;
    } else {
      assert [] + [Undefined(MAX_ID)] == [Undefined(MAX_ID)];
    }
  }

  // ----- the round trip -----------------------------------------------------------------------

  /** For a request without a path, for an object or for an object instance: the document serialized for a tidy
      tree is parsed back, under the same request, to the normal form of the siblings that the identifiers of the request
      lead to, exactly when there are any. In particular the nodes at the level below the request all come back. */
  lemma {:induction false} RoundTrip(uri: Option<Path>, nodes: seq<Node>, at: nat)
    requires |PathIn(uri)| <= 2 && IsPath(PathIn(uri))
    requires at <= |PathIn(uri)| && Tidy(nodes, at) && FindTarget(uri, nodes).Some?
    ensures SizableItems(Document(uri, FindTarget(uri, nodes).value))
    ensures var items := Document(uri, FindTarget(uri, nodes).value);
            |items| <= INT_MAX ==>
              && (forall found :: found != [] && Leads(nodes, PathIn(uri)[at..], found) ==>
                    Parse(uri, DocumentBytes(items)) == Some(Normal(found, |PathIn(uri)|)))
              && ((forall found :: found != [] ==> !Leads(nodes, PathIn(uri)[at..], found)) ==>
                    Parse(uri, DocumentBytes(items)) == if uri == Some([]) then Some([Undefined(MAX_ID)]) else None)
              && (at == |PathIn(uri)| && nodes != [] ==> Parse(uri, DocumentBytes(items)) == Some(Normal(nodes, |PathIn(uri)|)))
  {
    var p := PathIn(uri);
    var t := FindTarget(uri, nodes).value;
    TargetExact(uri, nodes, at);
    assert at == |p| ==> Leads(nodes, p[at..], nodes);
    hide Tidy, Document, Parse, DocumentBytes, SizableItems, FindTarget, Leads, Misses, Normal;
    if t.nodes == [] {
      EmptyDocument(uri, t.level);
      assert t == Target([], t.level) && Normal(t.nodes, |p|) == [];
    } else {
      FullDocument(uri, t);
    }
  }

  // ----- requests for a resource or a resource instance ---------------------------------------

  /** The base name of a request for a resource or resource instance. */
  lemma {:induction false} DeepBase(p: Path, level: nat)
    requires 3 <= |p| <= 4 && IsPath(p)
    ensures BaseText(Some(p), level) == if |p| < level then Text(p) + [SLASH] else Text(p)
    ensures PlainBase(Text(p)) && Text(p) != []
    ensures |p| == 3 ==> PlainBase(Text(p) + [SLASH])
  {
    TextLength(p);
    TextNotZero(p);
    hide Text;
  }

  /** One record that carries nothing but the base name stands for the path of the request. */
  lemma {:induction false} BareReads(p: Path, value: Option<Value>)
    requires 3 <= |p| <= 4 && IsPath(p)
    ensures Reads([Item(Text(p), [], value)], [], [Record(p, NormalOption(value))])
  {
    DeepBase(p, 0);
    TextLength(p);
    TextRoundTrip(p);
    assert Text(p) + [] == Text(p);
    hide Text, FromText, PlainBase;
    var (item, record) := (Item(Text(p), [], value), Record(p, NormalOption(value)));
    assert ReadsItem(item, [], record);
    assert [item][1..] == [] && [record][1..] == [];
  }

  /** What the serializer picks for the only node at the path of the request. */
  lemma {:induction false} DeepTarget(p: Path, n: Node)
    requires 3 <= |p| <= 4 && IsPath(p) && TidyNode(n, |p| - 1) && n.id == p[|p| - 1]
    ensures FindTarget(Some(p), [n]) == Some(if n.Container? then Target(n.children, 4) else Target([n], |p|))
  {
    if n.Container? {
      forall c | c in n.children ensures !c.Container? {
        assert TidyNode(c, 3);
      }
      assert n.children != [] ==> n.children[0] in n.children;
      assert FindAndCheck(p, 4, n.children, 4) == Some(Target(n.children, 4));
      assert IndexOf([n], p[2]) == 0;
    }
  }

  /** The records of the only node at the path of the request, however it is written. */
  lemma {:induction false} DeepReads(p: Path, n: Node)
    requires 3 <= |p| <= 4 && IsPath(p) && TidyNode(n, |p| - 1) && n.id == p[|p| - 1]
    ensures var t := if n.Container? then Target(n.children, 4) else Target([n], |p|);
            var items := Document(Some(p), t);
            items != [] && Reads(items, [], TreeRecords([n], p[..|p| - 1])) && SizableItems(items)
  {
    var t := if n.Container? then Target(n.children, 4) else Target([n], |p|);
    var items := Document(Some(p), t);
    DeepBase(p, t.level);
    assert p == p[..|p| - 1] + [n.id];
    TreeOfOne(n, p[..|p| - 1]);
    hide Text, Reads;
    if IsRecord(n) {
      BareItem(p, n, t);
      BareReads(p, ValueOf(n));
      hide Document, PlainBase;
      BareSizable(p, n);
    } else {
      assert items == Items(n.children, [], true, Text(p) + [SLASH]);
      hide Document, Items, SizableItems;
      ChildrenRead(p, n);
    }
  }

  lemma {:induction false} BareSizable(p: Path, n: Node)
    requires 3 <= |p| <= 4 && IsPath(p) && TidyNode(n, |p| - 1) && IsRecord(n)
    ensures SizableItems([Item(Text(p), [], ValueOf(n))])
  {
    TextLength(p);
    hide Text;
    assert SizableItem(Item(Text(p), [], ValueOf(n)));
  }

  lemma {:induction false} ChildrenRead(p: Path, n: Node)
    requires |p| == 3 && IsPath(p) && TidyNode(n, 2) && n.Container?
    ensures var items := Items(n.children, [], true, Text(p) + [SLASH]);
            Reads(items, [], TreeRecords(n.children, p)) && SizableItems(items)
  {
    var base := Text(p) + [SLASH];
    DeepBase(p, 4);
    assert InForce(base, []) + [] == Text(p) + [SLASH];
    hide Text, Reads, Items, SizableItems, Tidy, TreeRecords;
    TreeReads(n.children, [], base, [], p);
    ShortBase(base);
    hide PlainBase;
    ItemsSizable(n.children, [], base, 3);
  }

  lemma {:induction false} BareItem(p: Path, n: Node, t: Target)
    requires 3 <= |p| <= 4 && IsPath(p) && TidyNode(n, |p| - 1) && IsRecord(n)
    requires t == if n.Container? then Target(n.children, 4) else Target([n], |p|)
    ensures Document(Some(p), t) == [Item(Text(p), [], ValueOf(n))]
  {
    DeepBase(p, t.level);
    assert (Text(p) + [SLASH])[..|Text(p)|] == Text(p);
    hide Text;
    if !n.Container? {
      assert [n][1..] == [];
      assert Items([n], ParentText(Text(p)), false, Text(p)) == NodeItems(n, ParentText(Text(p)), false, Text(p)) + [];
    }
  }

  lemma {:induction false} TreeOfOne(n: Node, prefix: Path)
    ensures TreeRecords([n], prefix) == NodeRecords(n, prefix)
  {
    assert [n][1..] == [];
  }

  /** The containers around the resource or resource instance are taken off again. */
  lemma {:induction false} SelectDeep(p: Path, n: Node)
    requires 3 <= |p| <= 4 && n.id == p[|p| - 1]
    ensures Select(Some(p), Nested(p[..|p| - 1], 0, [n])) == Some([n])
  {
    var q := p[..|p| - 1];
    var inner := Nested(q[1..][1..], 2, [n]);
    assert Nested(q, 0, [n]) == [Container(p[0], KObject, Nested(q[1..], 1, [n]))];
    assert Nested(q[1..], 1, [n]) == [Container(p[1], KInstance, inner)];
    if |p| == 4 {
      assert q[1..][1..] == [p[2]] && [p[2]][1..] == [];
      assert Nested([p[2]][1..], 3, [n]) == [n];
      assert inner == [Container(p[2], KMultiple, [n])];
      assert ChildIndex(inner, p[2]) == 0 && ChildIndex([n], p[3]) == 0;
    } else {
      assert q[1..][1..] == [] && Nested([], 2, [n]) == [n];
      assert inner == [n] && ChildIndex([n], p[2]) == 0;
    }
    assert ChildIndex([Container(p[1], KInstance, inner)], p[1]) == 0;
  }

  /** For a request for a resource or a resource instance: the node at that path is parsed back in normal form. */
  lemma {:induction false} ResourceRoundTrip(p: Path, n: Node)
    requires 3 <= |p| <= 4 && IsPath(p) && TidyNode(n, |p| - 1) && n.id == p[|p| - 1]
    ensures FindTarget(Some(p), [n]).Some?
    ensures var items := Document(Some(p), FindTarget(Some(p), [n]).value);
            SizableItems(items) && (|items| <= INT_MAX ==> Parse(Some(p), DocumentBytes(items)) == Some([NormalNode(n, |p| - 1)]))
  {
    hide Document, Reads, Parse, DocumentBytes, SizableItems, Select, FindTarget;
    DeepTarget(p, n);
    DeepReads(p, n);
    var items := Document(Some(p), FindTarget(Some(p), [n]).value);
    if |items| <= INT_MAX {
      var q := p[..|p| - 1];
      DocumentParses(Some(p), items, TreeRecords([n], q));
      assert Tidy([n], |q|);
      RebuildNested(q, 0, [n]);
      AddAllIsAddFrom([], TreeRecords([n], q));
      assert Normal([n], |q|) == [NormalNode(n, |q|)] by { assert [n][1..] == []; }
      SelectDeep(p, NormalNode(n, |q|));
    }
  }

  // ----- a resource without anything to write -------------------------------------------------

  /** The path that is left of the text of a request when its last character is cut off. */
  function Cut(p: Path): Path
    requires p != []
  {
    var last := p[|p| - 1];
    if last < 10 then p[..|p| - 1] else p[..|p| - 1] + [last / 10]
  }

  lemma {:induction false} CutReads(p: Path)
    requires 3 <= |p| <= 4 && IsPath(p)
    ensures var text := Text(p)[..|Text(p)| - 1]; text != [] && PlainBase(text) && FromText(text) == Some(Cut(p))
    ensures IsPath(Cut(p))
  {
    var (front, last) := (p[..|p| - 1], p[|p| - 1]);
    TextLength(p);
    TextNotZero(p);
    TextLength(front);
    var text := Text(p)[..|Text(p)| - 1];
    if last < 10 {
      assert text == Text(front) + [SLASH];
      hide Text, FromText;
      TextWithSlash(front);
    } else {
      assert Cut(p)[..|front|] == front;
      assert Decimal.Digits(last)[..|Decimal.Digits(last)| - 1] == Decimal.Digits(last / 10) by { assert Decimal.Digits(last) == Decimal.Digits(last / 10) + [Decimal.ZERO + last % 10]; }
      assert text == Text(front) + [SLASH] + Decimal.Digits(last / 10) == Text(Cut(p));
      hide Text, FromText;
      TextRoundTrip(Cut(p));
    }
  }

  /** What a record without a value builds at its path. */
  function BareNode(q: Path): Node
    requires 2 <= |q| <= 4
  {
    if |q| == 2 then Container(q[1], KInstance, []) else Undefined(q[|q| - 1])
  }

  lemma {:induction false} BareRebuilt(q: Path)
    requires 2 <= |q| <= 4 && IsPath(q)
    ensures AddAll([], [Record(q, None)]) == Some(Nested(q[..|q| - 1], 0, [BareNode(q)]))
  {
    var (front, n) := (q[..|q| - 1], BareNode(q));
    assert front + [n.id] == q;
    TreeOfOne(n, front);
    assert TreeRecords([n], front) == [Record(q, None)];
    assert n.id < MAX_ID && TidyNode(n, |front|) && NormalNode(n, |front|) == n;
    assert Tidy([n], |front|) && Normal([n], |front|) == [n] by { OneTidy(n, |front|); }
    hide Nested, TreeRecords, AddAll, AddFrom, Normal, Tidy;
    RebuildNested(front, 0, [n]);
    AddAllIsAddFrom([], [Record(q, None)]);
  }

  lemma {:induction false} OneTidy(n: Node, level: nat)
    requires TidyNode(n, level)
    ensures Tidy([n], level) && Normal([n], level) == [NormalNode(n, level)]
  {
    hide TidyNode, NormalNode;
    assert [n][1..] == [];
  }

  /** Under a request with the cut path the answer is there only by coincidence. */
  lemma {:induction false} SelectCut(p: Path)
    requires 3 <= |p| <= 4 && IsPath(p) && IsPath(Cut(p))
    ensures var q := Cut(p);
            Select(Some(p), Nested(q[..|q| - 1], 0, [BareNode(q)]))
              == if |p| == 4 && p[3] == p[2] && p[3] < 10 then Some([Undefined(p[2])]) else None
  {
    var q := Cut(p);
    var (front, n) := (q[..|q| - 1], BareNode(q));
    if |q| == 2 {
      assert front == [p[0]] && front[1..] == [];
      assert Nested(front, 0, [n]) == [Container(p[0], KObject, [n])] && ChildIndex([n], p[1]) == 0;
    } else {
      var inner := Nested(front[1..][1..], 2, [n]);
      assert Nested(front, 0, [n]) == [Container(p[0], KObject, Nested(front[1..], 1, [n]))];
      assert Nested(front[1..], 1, [n]) == [Container(p[1], KInstance, inner)];
      assert ChildIndex([Container(p[1], KInstance, inner)], p[1]) == 0;
      if |q| == 3 {
        assert inner == [n] && [n][1..] == [];
      } else {
        assert front[1..][1..] == [p[2]] && [p[2]][1..] == [];
        assert Nested([p[2]][1..], 3, [n]) == [n];
        assert inner == [Container(p[2], KMultiple, [n])] && ChildIndex(inner, p[2]) == 0 && [n][1..] == [];
      }
    }
  }

  /** A document without nodes for a resource or a resource instance. When the base name ends in a slash the parser
      gets a node without type; otherwise the serializer cuts off the last digit of the path, and the document is refused
      but for a coincidence. */
  lemma {:induction false} EmptyResourceDocument(p: Path, level: nat)
    requires 3 <= |p| <= 4 && IsPath(p)
    ensures var items := Document(Some(p), Target([], level));
            && SizableItems(items) && |items| == 1
            && Parse(Some(p), DocumentBytes(items)) ==
                 (if |p| < level then Some([Undefined(p[|p| - 1])])
                  else if |p| == 4 && p[3] == p[2] && p[3] < 10 then Some([Undefined(p[2])])
                  else None)
  {
    hide Document, Parse, DocumentBytes, Reads, SizableItems, Nested, Select, AddAll, Text, Cut;
    var items := Document(Some(p), Target([], level));
    var q := if |p| < level then p else Cut(p);
    EmptyResourceReads(p, level);
    DocumentParses(Some(p), items, [Record(q, None)]);
    BareRebuilt(q);
    if |p| < level {
      SelectDeep(p, BareNode(p));
    } else {
      SelectCut(p);
    }
  }

  lemma {:induction false} EmptyResourceReads(p: Path, level: nat)
    requires 3 <= |p| <= 4 && IsPath(p)
    ensures var (items, q) := (Document(Some(p), Target([], level)), if |p| < level then p else Cut(p));
            && SizableItems(items) && |items| == 1 && IsPath(q) && 2 <= |q| <= 4
            && Reads(items, [], [Record(q, None)])
  {
    var (text, q) := (if |p| < level then Text(p) else Text(p)[..|Text(p)| - 1], if |p| < level then p else Cut(p));
    EmptyResourceItem(p, level);
    TextLength(p);
    DeepBase(p, level);
    CutReads(p);
    TextRoundTrip(p);
    hide Text, FromText, Document, BaseText, Cut;
    BareItemReads(text, q);
  }

  lemma {:induction false} EmptyResourceItem(p: Path, level: nat)
    requires 3 <= |p| <= 4 && IsPath(p)
    ensures Text(p) != []
    ensures Document(Some(p), Target([], level)) == [Item(if |p| < level then Text(p) else Text(p)[..|Text(p)| - 1], [], None)]
  {
    TextLength(p);
    DeepBase(p, level);
    assert (Text(p) + [SLASH])[..|Text(p)|] == Text(p);
    hide Text, BaseText;
  }

  lemma {:induction false} BareItemReads(text: seq<byte>, q: Path)
    requires text != [] && PlainBase(text) && FromText(text) == Some(q) && IsPath(q)
    ensures SizableItems([Item(text, [], None)]) && Reads([Item(text, [], None)], [], [Record(q, None)])
  {
    hide FromText;
    var (item, record) := (Item(text, [], None), Record(q, None));
    assert text + [] == text;
    assert SizableItem(item) && ReadsItem(item, [], record);
    assert [item][1..] == [] && [record][1..] == [];
  }

  /** A tree in which nothing is lost on the wire. */
  predicate Kept(nodes: seq<Node>, level: nat) {
    forall n :: n in nodes ==> KeptNode(n, level)
  }

  predicate KeptNode(n: Node, level: nat) {
    match n
    case Undefined(_) => true
    case Resource(_, v) => !v.CoreLink? && !(v.Integer? && v.i >= 0)
    case Container(_, _, children) => (children == [] ==> level != 2) && Kept(children, level + 1)
  }

  /** The normal form is the tree itself exactly when it has no non-negative signed integers, no links that are
      strings and no multiple resource without instances. */
  lemma {:induction false} NormalIsSame(nodes: seq<Node>, level: nat)
    ensures Normal(nodes, level) == nodes <==> Kept(nodes, level)
    decreases nodes
  {
    if nodes != [] {
      var (n, more) := (nodes[0], nodes[1..]);
      NormalIsSame(more, level);
      if n.Container? {
        NormalIsSame(n.children, level + 1);
      }
      assert NormalNode(n, level) == n <==> KeptNode(n, level);
      assert nodes == [n] + more;
      assert Normal(nodes, level)[0] == NormalNode(n, level) && Normal(nodes, level)[1..] == Normal(more, level);
      assert forall m :: m in nodes <==> m == n || m in more;
      hide NormalNode, KeptNode;
      assert Kept(nodes, level) <==> KeptNode(n, level) && Kept(more, level);
    }
  }

  // ----- when a document can be written -------------------------------------------------------

  lemma {:induction false} TidyNameable(nodes: seq<Node>, parent: seq<byte>, named: bool, level: nat)
    requires Tidy(nodes, level) && |parent| <= 1 + 6 * level
    ensures Nameable(nodes, parent, named)
    decreases nodes
  {
    if nodes != [] {
      TidyTail(nodes, level);
      TidyNameable(nodes[1..], parent, named, level);
      var n := nodes[0];
      Decimal.DigitsLength16(n.id);
      if !IsRecord(n) {
        TidyNameable(n.children, parent + Decimal.Digits(n.id) + [SLASH], named, level + 1);
      }
    }
  }

  /** For a tidy tree no name stands in the way, and the document is written whole exactly when its bytes fit the
      buffer; a link at the very end needs one byte more. */
  lemma {:induction false} TidyFits(uri: Option<Path>, t: Target)
    requires |PathIn(uri)| <= 2 && t.nodes != [] && t.level == |PathIn(uri)| + 1 && Tidy(t.nodes, |PathIn(uri)|)
    requires SizableItems(Document(uri, t))
    ensures CanName(uri, t) && Pieces(Document(uri, t)) != []
    ensures var (ps, bytes) := (Pieces(Document(uri, t)), ItemsBytes(Document(uri, t)));
            DocumentOutcome(uri, t).Fits? <==> |bytes| < BUFFER_SIZE || (|bytes| == BUFFER_SIZE && !IsLink(ps[|ps| - 1]))
  {
    BaseAndParent(uri, t.level);
    TidyNameable(t.nodes, ParentText(BaseText(uri, t.level)), IsNamed(uri, t), |PathIn(uri)|);
    var items := Document(uri, t);
    assert items != [] && Pieces(items) == ItemPieces(items[0]) + Pieces(items[1..]);
    BytesOfPieces(items);
    FitsExactly(Pieces(items), BUFFER_SIZE);
    hide Tidy, Nameable, ItemsBytes, Document, BaseText, SizableItems, Pieces, Outcomes;
  }

  /** Writing piece `i` runs behind the end of the buffer: everything before it fits, but it is a string of which only
      the head does, or a link for which no byte is left. */
  predicate RunsBehind(ps: seq<Piece>, i: nat)
    requires SizablePieces(ps)
  {
    && i < |ps| && Outcomes(ps[..i], BUFFER_SIZE).Fits? && |PiecesBytes(ps[..i])| <= BUFFER_SIZE
    && ps[i].Single? && Overruns(ps[i].value, BUFFER_SIZE - |PiecesBytes(ps[..i])|)
  }

  /** Serializing overruns the buffer exactly when it reaches a piece whose head fits and whose contents do not. */
  lemma {:induction false} DocumentOverruns(uri: Option<Path>, t: Target)
    requires |PathIn(uri)| <= 4 && SizableItems(Document(uri, t))
    ensures SizablePieces(Pieces(Document(uri, t)))
    ensures DocumentOutcome(uri, t).Overran? <==>
              exists i :: 0 <= i < |Pieces(Document(uri, t))| && RunsBehind(Pieces(Document(uri, t)), i)
  {
    BytesOfPieces(Document(uri, t));
    var ps := Pieces(Document(uri, t));
    hide Document, Outcomes, Pieces, PiecesBytes, SizablePiece;
    OverrunsExactly(ps, BUFFER_SIZE);
    forall i | 0 <= i < |ps| ensures OverrunsAt(ps, i, BUFFER_SIZE) <==> RunsBehind(ps, i) {
      PieceOverruns(ps, i);
    }
    hide OverrunsAt, RunsBehind;
  }

  lemma {:induction false} PieceOverruns(ps: seq<Piece>, i: nat)
    requires SizablePieces(ps) && i < |ps|
    ensures OverrunsAt(ps, i, BUFFER_SIZE) <==> RunsBehind(ps, i)
  {
    var front := ps[..i];
    assert SizablePieces(front) && SizablePiece(ps[i]);
    FitsExactly(front, BUFFER_SIZE);
    hide Outcomes, PiecesBytes, Overruns, SingularRoom, SingularBytes, HeadBytes;
  }

  // ----- one long value -----------------------------------------------------------------------

  lemma {:induction false} ShortPair(p: Pair)
    requires (p.key.Integer? || p.key.Unsigned?) && p.value.Str? && |p.value.bytes| <= 100
    ensures SizablePieces(PairPieces(p)) && |PiecesBytes(PairPieces(p))| <= 120
  {
    var (key, value) := (Single(p.key), Single(p.value));
    assert PairPieces(p) == [key] + [value];
    OnePiece(key);
    OnePiece(value);
    hide PiecesBytes, SizablePiece, ToBigEndian;
    PiecesBytesConcat([key], [value]);
  }

  lemma {:induction false} ShortFront(item: Item)
    requires |item.base| <= 100 && |item.name| <= 100
    ensures var ps := StartPieces(|Pairs(item)|, item.base) + NamePieces(item.name);
            SizablePieces(ps) && |PiecesBytes(ps)| <= 250
  {
    var start := Start(|Pairs(item)|);
    OnePiece(start);
    assert |PieceBytes(start)| == 1;
    ShortPair(Pair(Unsigned(NAME_LABEL), Str(item.name)));
    ShortPair(Pair(Integer(BASE_NAME_LABEL), Str(item.base)));
    hide PiecesBytes, PairPieces, SizablePiece, PieceBytes, Pairs;
    EmptyPieces();
    PiecesBytesConcat([start], BasePieces(item.base));
    PiecesBytesConcat([start] + BasePieces(item.base), NamePieces(item.name));
  }

  lemma {:induction false} EmptyPieces()
    ensures SizablePieces([]) && PiecesBytes([]) == []
  {
  }

  /** What is written before the value of a record is short. */
  lemma {:induction false} FrontIsShort(item: Item) returns (front: seq<Piece>)
    requires |item.base| <= 100 && |item.name| <= 100 && item.value.Some?
    ensures ItemPieces(item) == front + [Single(item.value.value)]
    ensures SizablePieces(front) && |PiecesBytes(front)| <= 300
  {
    var v := item.value.value;
    var (key, label_) := (ValueKey(v), Single(ValueKey(v)));
    var start := StartPieces(|Pairs(item)|, item.base) + NamePieces(item.name);
    ItemPiecesHalves(item);
    assert ValuePieces(item.value) == [label_] + [Single(v)];
    front := start + [label_];
    hide NamePieces, StartPieces, ValuePieces;
    assert ItemPieces(item) == front + [Single(v)] by {
      ConcatAssociative(StartPieces(|Pairs(item)|, item.base), NamePieces(item.name), [label_] + [Single(v)]);
      ConcatAssociative(start, [label_], [Single(v)]);
    }
    ShortFront(item);
    OnePiece(label_);
    assert |SingularBytes(key)| <= 12 by { hide ToBigEndian; }
    hide PiecesBytes, SizablePiece, ItemPieces, Pairs, SingularBytes;
    PiecesBytesConcat(start, [label_]);
  }

  predicate IsText(v: Value) {
    v.Str? || v.Opaque? || v.CoreLink?
  }

  /** The only record of a document with one value. */
  lemma {:induction false} OnlyItem(uri: Option<Path>, t: Target, n: Node) returns (item: Item)
    requires |PathIn(uri)| <= 4 && t.nodes == [n] && n.Resource?
    ensures Document(uri, t) == [item] && item.value == Some(n.value) && |item.base| <= 100 && |item.name| <= 100
  {
    var base := BaseText(uri, t.level);
    BaseShort(uri, t.level);
    Decimal.DigitsLength16(n.id);
    assert [n][1..] == [];
    item := NodeItems(n, ParentText(base), IsNamed(uri, t), base)[0];
    hide BaseText, Decimal.Digits;
    assert Document(uri, t) == Items([n], ParentText(base), IsNamed(uri, t), base);
    assert Items([n], ParentText(base), IsNamed(uri, t), base) == [item] + [];
  }

  /** A document with one text or opaque value overruns the buffer exactly when it is too long for it: the serializer
      never refuses such a value. */
  lemma {:induction false} LongValueOverruns(uri: Option<Path>, t: Target, n: Node)
    requires |PathIn(uri)| <= 4 && t.nodes == [n] && n.Resource? && IsText(n.value) && Sizable(n.value)
    ensures SizableItems(Document(uri, t))
    ensures DocumentOutcome(uri, t).Overran? <==> |ItemsBytes(Document(uri, t))| > BUFFER_SIZE
    ensures |n.value.bytes| >= BUFFER_SIZE ==> DocumentOutcome(uri, t).Overran?
  {
    var item := OnlyItem(uri, t, n);
    var v := n.value;
    assert SizableItem(item);
    OneItemPieces(item);
    BytesOfPieces([item]);
    var front := FrontIsShort(item);
    FitsExactly(front, BUFFER_SIZE);
    OutcomesConcat(front, [Single(v)], BUFFER_SIZE);
    OneOutcome(Single(v), BUFFER_SIZE - |PiecesBytes(front)|);
    OnePiece(Single(v));
    PiecesBytesConcat(front, [Single(v)]);
    TextSize(v);
    hide Document, Outcomes, Pieces, ItemPieces, PiecesBytes, ItemsBytes, SingularBytes, SizableItem, SizablePiece;
  }

  lemma {:induction false} TextSize(v: Value)
    requires IsText(v) && Sizable(v)
    ensures |v.bytes| < |SingularBytes(v)| <= |v.bytes| + 9 && Contents(v) == v.bytes
  {
    hide ToBigEndian;
  }

  /** A readable resource with a long text or opaque value is such a document. */
  lemma {:induction false} LongResourceOverruns(p: Path, v: Value)
    requires |p| == 3 && IsPath(p) && IsText(v) && Sizable(v) && |v.bytes| >= BUFFER_SIZE
    ensures FindTarget(Some(p), [Resource(p[2], v)]).Some?
    ensures DocumentOutcome(Some(p), FindTarget(Some(p), [Resource(p[2], v)]).value).Overran?
  {
    var n := Resource(p[2], v);
    DeepTarget(p, n);
    hide FindTarget;
    LongValueOverruns(Some(p), Target([n], 3), n);
  }
}
