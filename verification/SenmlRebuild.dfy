/** The records of a tree, added in depth-first order, give the tree back. */
module SenmlRebuild {
  import opened Bytes
  import opened Data
  import opened Uri
  import opened SenmlRecords
  import opened SenmlCborWriter
  import opened SenmlCborRoundTrip

  /** The tree as the parser returns it: values are normalised, and a multiple resource without instances is
      left without a type. */
  function Normal(nodes: seq<Node>, level: nat): (r: seq<Node>)
    ensures |r| == |nodes|
    decreases nodes
  {
    if nodes == [] then [] else [NormalNode(nodes[0], level)] + Normal(nodes[1..], level)
  }

  function NormalNode(n: Node, level: nat): (r: Node)
    ensures r.id == n.id
    decreases n
  {
    match n
    case Undefined(_) => n
    case Resource(id, v) => Resource(id, NormalValue(v))
    case Container(id, kind, children) =>
      if children == [] && level == 2 then Undefined(id) else Container(id, kind, Normal(children, level + 1))
  }

  /** Records whose paths begin at `level`. */
  predicate FromLevel(records: seq<Record>, level: nat) {
    forall i :: 0 <= i < |records| ==> records[i].path != [] && level + |records[i].path| <= 4
  }

  /** `AddAll` from a level of the tree on. */
  function AddFrom(nodes: seq<Node>, level: nat, records: seq<Record>): Option<seq<Node>>
    requires FromLevel(records, level)
    decreases |records|
  {
    if records == [] then Some(nodes)
    else
      match AddRecord(nodes, level, records[0].path, records[0].value)
      case None => None
      case Some(next) => AddFrom(next, level, records[1..])
  }

  lemma {:induction false} AddFromConcat(nodes: seq<Node>, level: nat, a: seq<Record>, b: seq<Record>)
    requires FromLevel(a, level) && FromLevel(b, level)
    ensures FromLevel(a + b, level)
    ensures AddFrom(nodes, level, a + b) == match AddFrom(nodes, level, a) case None => None case Some(next) => AddFrom(next, level, b)
    decreases a
  {
    hide AddRecord;
    if a == [] {
      assert a + b == b;
    } else {
      assert (a + b)[1..] == a[1..] + b;
      match AddRecord(nodes, level, a[0].path, a[0].value)
      case None =>
      case Some(next) => AddFromConcat(next, level, a[1..], b);
    }
  }

  lemma {:induction false} AddAllIsAddFrom(nodes: seq<Node>, records: seq<Record>)
    requires FromLevel(records, 0)
    ensures IsRecords(records) && AddAll(nodes, records) == AddFrom(nodes, 0, records)
    decreases records
  {
    if records != [] {
      var n := |records| - 1;
      AddAllIsAddFrom(nodes, records[..n]);
      AddFromConcat(nodes, 0, records[..n], records[n..]);
      assert records[..n] + records[n..] == records;
      assert records[n..][1..] == [];
      hide AddRecord;
    }
  }

  /** The same records one level further down. */
  function Under(id: uint16, records: seq<Record>): (r: seq<Record>)
    ensures |r| == |records|
    ensures forall i :: 0 <= i < |r| ==> r[i] == Record([id] + records[i].path, records[i].value)
  {
    if records == [] then [] else [Record([id] + records[0].path, records[0].value)] + Under(id, records[1..])
  }

  /** `nodes` followed by a container that holds `children`. */
  function WithContainer(nodes: seq<Node>, level: nat, id: uint16, children: seq<Node>): seq<Node>
  {
    nodes + [Container(id, LevelKind(level), children)]
  }

  lemma {:induction false} FindLast(nodes: seq<Node>, level: nat, id: uint16, children: seq<Node>)
    requires Find(nodes, id) == |nodes|
    ensures Find(WithContainer(nodes, level, id, children), id) == |nodes|
  {
    FindIs(WithContainer(nodes, level, id, children), id, |nodes|);
  }

  /** A record below the last container changes only what it holds. */
  lemma {:induction false} AddInside(nodes: seq<Node>, level: nat, id: uint16, children: seq<Node>, p: Path, value: Option<Value>)
    requires Find(nodes, id) == |nodes| && p != [] && level + 1 + |p| <= 4
    ensures AddRecord(WithContainer(nodes, level, id, children), level, [id] + p, value)
         == match AddRecord(children, level + 1, p, value)
            case None => None case Some(ch) => Some(WithContainer(nodes, level, id, ch))
  {
    FindLast(nodes, level, id, children);
    assert ([id] + p)[1..] == p;
    var all := WithContainer(nodes, level, id, children);
    forall ch: seq<Node> ensures all[|nodes| := Container(id, LevelKind(level), ch)] == WithContainer(nodes, level, id, ch) {
    }
  }

  /** The first record below an identifier creates its container. */
  lemma {:induction false} AddOutside(nodes: seq<Node>, level: nat, id: uint16, p: Path, value: Option<Value>)
    requires Find(nodes, id) == |nodes| && p != [] && level + 1 + |p| <= 4
    ensures AddRecord(nodes, level, [id] + p, value)
         == match AddRecord([], level + 1, p, value)
            case None => None case Some(ch) => Some(WithContainer(nodes, level, id, ch))
  {
    assert ([id] + p)[1..] == p;
  }

  lemma {:induction false} AddUnderInside(nodes: seq<Node>, level: nat, id: uint16, children: seq<Node>, records: seq<Record>)
    requires Find(nodes, id) == |nodes| && FromLevel(records, level + 1)
    ensures FromLevel(Under(id, records), level)
    ensures AddFrom(WithContainer(nodes, level, id, children), level, Under(id, records))
         == match AddFrom(children, level + 1, records)
            case None => None case Some(ch) => Some(WithContainer(nodes, level, id, ch))
    decreases records
  {
    hide AddRecord, WithContainer;
    if records != [] {
      var r := records[0];
      AddInside(nodes, level, id, children, r.path, r.value);
      assert Under(id, records)[1..] == Under(id, records[1..]);
      match AddRecord(children, level + 1, r.path, r.value)
      case None =>
      case Some(ch) => AddUnderInside(nodes, level, id, ch, records[1..]);
    }
  }

  /** Records below an identifier that is not there yet build its container from nothing. */
  lemma {:induction false} AddUnder(nodes: seq<Node>, level: nat, id: uint16, records: seq<Record>)
    requires Find(nodes, id) == |nodes| && FromLevel(records, level + 1) && records != []
    ensures FromLevel(Under(id, records), level)
    ensures AddFrom(nodes, level, Under(id, records))
         == match AddFrom([], level + 1, records)
            case None => None case Some(ch) => Some(WithContainer(nodes, level, id, ch))
  {
    hide AddRecord, WithContainer;
    var r := records[0];
    AddOutside(nodes, level, id, r.path, r.value);
    assert Under(id, records)[1..] == Under(id, records[1..]);
    AddUnderInside(nodes, level, id, [], records[1..]);
    match AddRecord([], level + 1, r.path, r.value)
    case None =>
    case Some(ch) => AddUnderInside(nodes, level, id, ch, records[1..]);
  }

  // ----- whole trees --------------------------------------------------------------------------

  lemma {:induction false} UnderConcat(id: uint16, a: seq<Record>, b: seq<Record>)
    ensures Under(id, a + b) == Under(id, a) + Under(id, b)
  {
  }

  lemma {:induction false} TreeUnder(nodes: seq<Node>, id: uint16, prefix: Path)
    ensures TreeRecords(nodes, [id] + prefix) == Under(id, TreeRecords(nodes, prefix))
    decreases nodes
  {
    if nodes != [] {
      var n := nodes[0];
      assert ([id] + prefix) + [n.id] == [id] + (prefix + [n.id]);
      if !IsRecord(n) {
        TreeUnder(n.children, id, prefix + [n.id]);
      }
      assert NodeRecords(n, [id] + prefix) == Under(id, NodeRecords(n, prefix));
      hide NodeRecords;
      TreeUnder(nodes[1..], id, prefix);
      UnderConcat(id, NodeRecords(n, prefix), TreeRecords(nodes[1..], prefix));
    }
  }

  lemma {:induction false} TreeRecordsNonEmpty(nodes: seq<Node>, prefix: Path)
    requires nodes != []
    ensures TreeRecords(nodes, prefix) != []
    decreases nodes
  {
    if !IsRecord(nodes[0]) {
      TreeRecordsNonEmpty(nodes[0].children, prefix + [nodes[0].id]);
    }
  }

  lemma {:induction false} RecordRebuilt(built: seq<Node>, level: nat, n: Node)
    requires TidyNode(n, level) && IsRecord(n) && Find(built, n.id) == |built|
    ensures AddRecord(built, level, [n.id], NormalOption(ValueOf(n))) == Some(built + [NormalNode(n, level)])
  {
  }

  lemma {:induction false} NodeRebuilt(built: seq<Node>, level: nat, n: Node)
    requires TidyNode(n, level) && Find(built, n.id) == |built|
    ensures FromLevel(NodeRecords(n, []), level)
    ensures AddFrom(built, level, NodeRecords(n, [])) == Some(built + [NormalNode(n, level)])
    decreases n, 0
  {
    assert [] + [n.id] == [n.id] + [];
    if IsRecord(n) {
      RecordRebuilt(built, level, n);
      assert NodeRecords(n, [])[1..] == [];
      hide AddRecord;
    } else {
      hide AddRecord, AddFrom, TreeRecords, Find;
      Rebuild([], level + 1, n.children);
      assert [] + Normal(n.children, level + 1) == Normal(n.children, level + 1);
      TreeUnder(n.children, n.id, []);
      TreeRecordsNonEmpty(n.children, []);
      AddUnder(built, level, n.id, TreeRecords(n.children, []));
    }
  }

  lemma {:induction false} FindAppended(built: seq<Node>, n: Node, id: uint16)
    requires Find(built, id) == |built| && n.id != id
    ensures Find(built + [n], id) == |built + [n]|
  {
    if Find(built + [n], id) < |built + [n]| {
      FindBeyond(built, n, id);
    }
  }

  lemma {:induction false} FindBeyond(built: seq<Node>, n: Node, id: uint16)
    requires n.id != id && Find(built, id) == |built|
    ensures Find(built + [n], id) == |built| + 1
  {
    if built != [] {
      FindBeyond(built[1..], n, id);
      assert (built + [n])[1..] == built[1..] + [n];
    }
  }

  /** The records of a tidy tree build its normal form behind what is already there. */
  lemma {:induction false} Rebuild(built: seq<Node>, level: nat, nodes: seq<Node>)
    requires Tidy(nodes, level) && forall n :: n in nodes ==> Find(built, n.id) == |built|
    ensures FromLevel(TreeRecords(nodes, []), level)
    ensures AddFrom(built, level, TreeRecords(nodes, [])) == Some(built + Normal(nodes, level))
    decreases nodes, 1
  {
    if nodes == [] {
      assert built + [] == built;
    } else {
      var (n, more) := (nodes[0], nodes[1..]);
      TidyTail(nodes, level);
      assert n in nodes && (forall m :: m in more ==> m in nodes && m.id != n.id);
      hide AddRecord, AddFrom, NodeRecords, Find, Tidy, TidyNode, NormalNode, DistinctIds, FromLevel, TreeRecords, Normal;
      NodeRebuilt(built, level, n);
      forall m | m in more ensures Find(built + [NormalNode(n, level)], m.id) == |built + [NormalNode(n, level)]| {
        FindAppended(built, NormalNode(n, level), m.id);
      }
      Rebuild(built + [NormalNode(n, level)], level, more);
      RebuildStep(built, level, nodes);
    }
  }

  lemma {:induction false} RebuildStep(built: seq<Node>, level: nat, nodes: seq<Node>)
    requires nodes != []
    requires FromLevel(NodeRecords(nodes[0], []), level) && FromLevel(TreeRecords(nodes[1..], []), level)
    requires AddFrom(built, level, NodeRecords(nodes[0], [])) == Some(built + [NormalNode(nodes[0], level)])
    requires var next := built + [NormalNode(nodes[0], level)];
             AddFrom(next, level, TreeRecords(nodes[1..], [])) == Some(next + Normal(nodes[1..], level))
    ensures FromLevel(TreeRecords(nodes, []), level)
    ensures AddFrom(built, level, TreeRecords(nodes, [])) == Some(built + Normal(nodes, level))
  {
    AddFromConcat(built, level, NodeRecords(nodes[0], []), TreeRecords(nodes[1..], []));
    ConcatAssociative(built, [NormalNode(nodes[0], level)], Normal(nodes[1..], level));
    hide AddRecord, AddFrom, NodeRecords, NormalNode, FromLevel;
  }

  lemma {:induction false} OnlyContainer(level: nat, id: uint16, children: seq<Node>)
    ensures WithContainer([], level, id, children) == [Container(id, LevelKind(level), children)]
  {
  }

  /** Containers around a tree, one for each identifier of the path. */
  function Nested(p: Path, level: nat, nodes: seq<Node>): seq<Node>
    decreases |p|
  {
    if p == [] then nodes else [Container(p[0], LevelKind(level), Nested(p[1..], level + 1, nodes))]
  }

  lemma {:induction false} RebuildNested(p: Path, level: nat, nodes: seq<Node>)
    requires nodes != [] && level + |p| <= 3 && Tidy(nodes, level + |p|)
    ensures FromLevel(TreeRecords(nodes, p), level)
    ensures AddFrom([], level, TreeRecords(nodes, p)) == Some(Nested(p, level, Normal(nodes, level + |p|)))
    decreases |p|
  {
    if p == [] {
      Rebuild([], level, nodes);
      assert [] + Normal(nodes, level) == Normal(nodes, level);
    } else {
      hide AddFrom, TreeRecords, AddRecord, WithContainer, Tidy, Normal, FromLevel;
      RebuildNested(p[1..], level + 1, nodes);
      assert p == [p[0]] + p[1..];
      TreeUnder(nodes, p[0], p[1..]);
      TreeRecordsNonEmpty(nodes, p[1..]);
      AddUnder([], level, p[0], TreeRecords(nodes, p[1..]));
      OnlyContainer(level, p[0], Nested(p[1..], level + 1, Normal(nodes, level + |p|)));
    }
  }
}
