/** What the SenML-CBOR parser makes of any record whose labels and values are on the wire, whether a serializer would write
    them or not (data/senml_cbor.c:68-367, sections 4 and 6 of RFC 8428). */
module SenmlLabels {
  import opened Bytes
  import opened Data
  import opened Uri
  import opened Cbor
  import opened SenmlRecords
  import opened W = SenmlCborWriter
  import opened R = SenmlCborReader
  import opened SenmlCborRoundTrip

  /** What a label and what it labels are to the record. */
  datatype Family = BaseName | BaseTime | BaseValue | Version | Name | OwnValue | Time | Ignored

  predicate IsNumber(v: Value) {
    v.Integer? || v.Unsigned?
  }

  /** The table of labels: `None` when the label is not one or what it labels is not of the kind it asks for. */
  function FamilyOf(p: Pair): Option<Family>
  {
    var (k, v) := (Received(p.key), Received(p.value));
    if k.Str? then
      if k.bytes == [118, 108, 111] then (if v.Str? && TextToLink(v.bytes).Some? then Some(OwnValue) else None)
      else if k.bytes == [] || k.bytes[|k.bytes| - 1] == 95 then None
      else Some(Ignored)
    else if DecodeInt(k).None? then Some(Ignored)
    else
      var n := DecodeInt(k).value;
      if n < -6 || n > 8 then None
      else if n == -5 then (if IsNumber(v) then Some(BaseValue) else None)
      else if n == -3 then (if DecodeInt(v).Some? then Some(BaseTime) else None)
      else if n == -2 then (if v.Str? && |v.bytes| <= MAX_STRING_LEN && (|v.bytes| == 1 ==> v.bytes == [47]) then Some(BaseName) else None)
      else if n == -1 then (if DecodeInt(v) == Some(10) then Some(Version) else None)
      else if n == 0 then (if !v.Str? then None else Some(Name))
      else if n == 2 then (if IsNumber(v) then Some(OwnValue) else None)
      else if n == 3 then (if v.Str? then Some(OwnValue) else None)
      else if n == 4 then (if DecodeBool(v).Some? then Some(OwnValue) else None)
      else if n == 6 then (if DecodeInt(v).Some? then Some(Time) else None)
      else if n == 8 then (if v.Opaque? then Some(OwnValue) else None)
      else Some(Ignored)
  }

  /** The value that a pair of the family `OwnValue` gives the record. */
  function OwnValueOf(p: Pair): Value
    requires FamilyOf(p) == Some(OwnValue)
  {
    var (k, v) := (Received(p.key), Received(p.value));
    if k.Str? then ObjectLink(TextToLink(v.bytes).value.objectId, TextToLink(v.bytes).value.instanceId)
    else if DecodeInt(k) == Some(4) then Boolean(DecodeBool(v).value)
    else v
  }

  /** Does the pair give the record something of the family? An empty name is none. */
  predicate Gives(p: Pair, f: Family) {
    f != Ignored && FamilyOf(p) == Some(f) && !(f == Name && Received(p.value) == Str([]))
  }

  /** Pair `j` is of a family that pair `i` has given already. */
  predicate Again(ps: seq<Pair>, i: nat, j: nat) {
    i < j < |ps| && FamilyOf(ps[i]).Some? && Gives(ps[i], FamilyOf(ps[i]).value) && FamilyOf(ps[j]) == FamilyOf(ps[i])
  }

  predicate AllKnown(ps: seq<Pair>) {
    forall i :: 0 <= i < |ps| ==> FamilyOf(ps[i]).Some?
  }

  predicate NoneAgain(ps: seq<Pair>) {
    forall i, j :: 0 <= i < j < |ps| ==> !Again(ps, i, j)
  }

  /** What has been seen of a family. */
  function SeenOf(s: Seen, f: Family): nat
  {
    match f
    case BaseName => if s.bn then 1 else 0
    case BaseTime => if s.bt then 1 else 0
    case BaseValue => if s.bv then 1 else 0
    case Version => if s.bver then 1 else 0
    case Name => if s.name != [] then 1 else 0
    case OwnValue => if s.value.Some? then 1 else 0
    case Time => if s.time then 1 else 0
    case Ignored => 0
  }

  function TextOf(v: Value): seq<byte>
  {
    if v.Str? then v.bytes else []
  }

  /** A base value of zero is none. */
  function NotZero(v: Value): Option<Value>
  {
    if v == Integer(0) || v == Unsigned(0) then None else Some(v)
  }

  /** What has been seen once a value of the family came, or a record's own value in its final form. */
  function PutAs(s: Seen, f: Family, v: Value, own: Option<Value>): Seen
  {
    match f
    case BaseName => s.(bn := true, base := s.base.(name := CString(TextOf(v))))
    case BaseTime => s.(bt := true)
    case BaseValue => s.(bv := true, base := s.base.(value := NotZero(v)))
    case Version => s.(bver := true)
    case Name => s.(name := TextOf(v))
    case OwnValue => s.(value := own)
    case Time => s.(time := true)
    case Ignored => s
  }

  function Put(s: Seen, p: Pair): Seen
    requires FamilyOf(p).Some?
  {
    PutAs(s, FamilyOf(p).value, Received(p.value), if FamilyOf(p) == Some(OwnValue) then Some(OwnValueOf(p)) else None)
  }

  lemma {:induction false} TextLabel(p: Pair, s: Seen)
    requires Received(p.key).Str?
    ensures ApplyPair(p, s)
         == if FamilyOf(p).None? || SeenOf(s, FamilyOf(p).value) == 1 then None else Some(Put(s, p))
  {
    hide TextToLink, CString, DecodeBool, DecodeInt;
  }

  lemma {:induction false} NumberLabel(p: Pair, s: Seen)
    requires !Received(p.key).Str?
    ensures ApplyPair(p, s)
         == if FamilyOf(p).None? || SeenOf(s, FamilyOf(p).value) == 1 then None else Some(Put(s, p))
  {
    hide TextToLink, CString, Received, DecodeBool, DecodeInt;
    var v := Received(p.value);
    if v.Str? && |v.bytes| == 1 {
      assert v.bytes == [47] <==> v.bytes[0] == SLASH;
    }
  }

  /** One pair: refused when it is not in the table or was given before. */
  lemma {:induction false} OnePair(p: Pair, s: Seen)
    ensures ApplyPair(p, s)
         == if FamilyOf(p).None? || SeenOf(s, FamilyOf(p).value) == 1 then None else Some(Put(s, p))
  {
    hide ApplyPair, FamilyOf, Put;
    if Received(p.key).Str? { TextLabel(p, s); } else { NumberLabel(p, s); }
  }

  lemma {:induction false} NamesAreText(p: Pair)
    requires FamilyOf(p) == Some(Name)
    ensures Received(p.value).Str?
  {
    hide Received, DecodeInt;
  }

  lemma {:induction false} PutSeen(p: Pair, s: Seen, f: Family)
    requires FamilyOf(p).Some? && SeenOf(s, FamilyOf(p).value) == 0
    ensures SeenOf(Put(s, p), f) == SeenOf(s, f) + (if Gives(p, f) then 1 else 0)
  {
    if FamilyOf(p) == Some(Name) { NamesAreText(p); }
    hide FamilyOf, OwnValueOf, Received, PutAs, SeenOf;
    var own := if FamilyOf(p) == Some(OwnValue) then Some(OwnValueOf(p)) else None;
    PutAsSeen(s, FamilyOf(p).value, Received(p.value), own, f);
  }

  lemma {:induction false} PutAsSeen(s: Seen, g: Family, v: Value, own: Option<Value>, f: Family)
    requires SeenOf(s, g) == 0 && (g == OwnValue ==> own.Some?)
    ensures SeenOf(PutAs(s, g, v, own), f) == SeenOf(s, f) + (if g == f && g != Ignored && !(g == Name && TextOf(v) == []) then 1 else 0)
  {
    hide CString, NotZero;
  }

  /** None of these pairs is of a family that has been seen. */
  predicate AllNew(ps: seq<Pair>, s: Seen) {
    forall i :: 0 <= i < |ps| && FamilyOf(ps[i]).Some? ==> SeenOf(s, FamilyOf(ps[i]).value) == 0
  }

  /** Pairs are taken exactly when all are in the table, none was seen before and none is given again. */
  lemma {:induction false} PairsTaken(ps: seq<Pair>, s: Seen)
    ensures ApplyPairs(ps, s).Some? <==> AllKnown(ps) && AllNew(ps, s) && NoneAgain(ps)
  {
    if ps != [] {
      var (p, more) := (ps[0], ps[1..]);
      OnePair(p, s);
      hide ApplyPair, FamilyOf, Gives, SeenOf, Put;
      if FamilyOf(p).Some? && SeenOf(s, FamilyOf(p).value) == 0 {
        var t := Put(s, p);
        PairsTaken(more, t);
        TakenStep(ps, s, t);
        hide AllKnown, AllNew, NoneAgain, ApplyPairs;
      }
    }
  }

  lemma {:induction false} TakenStep(ps: seq<Pair>, s: Seen, t: Seen)
    requires ps != [] && FamilyOf(ps[0]).Some? && SeenOf(s, FamilyOf(ps[0]).value) == 0 && t == Put(s, ps[0])
    ensures AllKnown(ps) && AllNew(ps, s) && NoneAgain(ps) <==> AllKnown(ps[1..]) && AllNew(ps[1..], t) && NoneAgain(ps[1..])
  {
    AgainStep(ps);
    NewStep(ps, s, t);
    hide FamilyOf, SeenOf, Put, Gives, Again, NoneAgain, AllNew;
    assert forall i :: 0 < i < |ps| ==> ps[i] == ps[1..][i - 1];
  }

  /** Nothing is given again exactly when that holds behind the first pair, and the first gives nothing that comes again. */
  lemma {:induction false} AgainStep(ps: seq<Pair>)
    requires ps != []
    ensures NoneAgain(ps) <==> NoneAgain(ps[1..]) && forall j :: 0 < j < |ps| ==> !Again(ps, 0, j)
  {
    hide FamilyOf, Gives;
    var more := ps[1..];
    if NoneAgain(ps) {
      forall i, j | 0 <= i < j < |more| ensures !Again(more, i, j) {
        assert !Again(ps, i + 1, j + 1);
      }
    }
    if NoneAgain(more) && forall j :: 0 < j < |ps| ==> !Again(ps, 0, j) {
      forall i, j | 0 <= i < j < |ps| ensures !Again(ps, i, j) {
        if i > 0 { assert !Again(more, i - 1, j - 1); }
      }
    }
  }

  /** What is new at first stays new exactly when the first pair does not give it. */
  lemma {:induction false} NewStep(ps: seq<Pair>, s: Seen, t: Seen)
    requires ps != [] && FamilyOf(ps[0]).Some? && SeenOf(s, FamilyOf(ps[0]).value) == 0 && t == Put(s, ps[0])
    ensures AllNew(ps[1..], t) <==> AllNew(ps, s) && forall j :: 0 < j < |ps| ==> !Again(ps, 0, j)
  {
    var (p, more) := (ps[0], ps[1..]);
    forall j | 0 < j < |ps| && FamilyOf(ps[j]).Some?
      ensures SeenOf(t, FamilyOf(ps[j]).value) == SeenOf(s, FamilyOf(ps[j]).value) + (if Again(ps, 0, j) then 1 else 0)
    {
      PutSeen(p, s, FamilyOf(ps[j]).value);
    }
    hide FamilyOf, SeenOf, Put, Gives;
    assert forall j :: 0 < j < |ps| ==> ps[j] == more[j - 1];
    assert forall j :: 0 <= j < |more| ==> more[j] == ps[j + 1];
    assert forall j :: 0 < j < |ps| && FamilyOf(ps[j]).None? ==> !Again(ps, 0, j);
  }

  // ----- what a record says -------------------------------------------------------------------

  /** The field of a family: a value or a text. */
  function Field(s: Seen, f: Family): (Option<Value>, seq<byte>)
  {
    match f
    case OwnValue => (s.value, [])
    case BaseValue => (s.base.value, [])
    case Name => (None, s.name)
    case BaseName => (None, s.base.name)
    case _ => (None, [])
  }

  /** What the pair puts there. */
  function Given(p: Pair, f: Family): (Option<Value>, seq<byte>)
    requires FamilyOf(p) == Some(f)
  {
    match f
    case OwnValue => (Some(OwnValueOf(p)), [])
    case BaseValue => (NotZero(Received(p.value)), [])
    case Name => (None, TextOf(Received(p.value)))
    case BaseName => (None, CString(TextOf(Received(p.value))))
    case _ => (None, [])
  }

  lemma {:induction false} PutField(p: Pair, s: Seen, f: Family)
    requires FamilyOf(p).Some? && SeenOf(s, FamilyOf(p).value) == 0
    ensures Field(Put(s, p), f) == if Gives(p, f) then Given(p, f) else Field(s, f)
  {
    hide FamilyOf, OwnValueOf, CString, Received, NotZero;
  }

  /** The field is what the pair that gives it says, and as before if none does. */
  ghost predicate Told(ps: seq<Pair>, s: Seen, t: Seen, f: Family) {
    && (forall i :: 0 <= i < |ps| && Gives(ps[i], f) ==> Field(t, f) == Given(ps[i], f))
    && ((forall i :: 0 <= i < |ps| ==> !Gives(ps[i], f)) ==> Field(t, f) == Field(s, f))
  }

  lemma {:induction false} PairsTold(ps: seq<Pair>, s: Seen, f: Family)
    requires ApplyPairs(ps, s).Some?
    ensures Told(ps, s, ApplyPairs(ps, s).value, f)
  {
    PairsTaken(ps, s);
    if ps != [] {
      var (p, more) := (ps[0], ps[1..]);
      OnePair(p, s);
      var t := Put(s, p);
      assert ApplyPairs(ps, s) == ApplyPairs(more, t);
      PutField(p, s, f);
      hide ApplyPair, FamilyOf, SeenOf, Put, Field, Given, ApplyPairs;
      PairsTold(more, t, f);
      var end := ApplyPairs(more, t).value;
      assert forall i :: 0 <= i < |more| ==> more[i] == ps[i + 1];
      assert forall i :: 0 < i < |ps| ==> ps[i] == more[i - 1];
      if Gives(p, f) {
        forall i | 0 <= i < |more| ensures !Gives(more[i], f) {
          assert !Again(ps, 0, i + 1);
        }
      }
    }
  }

  function RecordBytes(ps: seq<Pair>): seq<byte>
    requires SizablePairs(ps) && |ps| <= UINT64_MAX
  {
    HeadBytes(MAP, |ps|) + PairsBytes(ps)
  }

  /** Any record on the wire: it is refused unless all its labels are in the table and none is given again; then its name
      and the base name in force make its path, and its own value and the base value in force make its value. */
  lemma {:induction false} RecordTold(buffer: seq<byte>, ps: seq<Pair>, base: Base) returns (t: Seen)
    requires SizablePairs(ps) && 0 < |ps| <= INT_MAX && IsBase(base) && Holds(buffer, 0, RecordBytes(ps))
    ensures !(AllKnown(ps) && NoneAgain(ps)) ==> ParseItem(buffer, base).None?
    ensures AllKnown(ps) && NoneAgain(ps) ==>
              && IsBase(t.base) && (forall f: Family :: Told(ps, Fresh(base), t, f))
              && ParseItem(buffer, base)
                 == (match (PathOf(t.base.name, t.name), Combine(t.value, t.base.value))
                     case (Some(path), Some(value)) => Some(Parsed(Record(path, value), t.base, |RecordBytes(ps)|))
                     case _ => None)
              && (|t.base.name| + |t.name| > 24 ==> ParseItem(buffer, base).None?)
  {
    hide ParseItem, RecordBytes, ApplyPairs, AllKnown, NoneAgain, FamilyOf, PathOf, Combine, Told, Holds, SizablePairs, IsBase;
    RecordSeen(buffer, ps, base);
    FreshTaken(ps, base);
    t := Fresh(base);
    if ApplyPairs(ps, Fresh(base)).Some? {
      t := ApplyPairs(ps, Fresh(base)).value;
      LongNames(t.base.name, t.name);
      forall f: Family ensures Told(ps, Fresh(base), t, f) {
        PairsTold(ps, Fresh(base), f);
      }
    }
  }

  lemma {:induction false} LongNames(base: seq<byte>, name: seq<byte>)
    ensures |base| + |name| > 24 ==> PathOf(base, name) == None
    ensures |base| + |name| == 0 ==> PathOf(base, name) == Some([])
    ensures 0 < |base| + |name| <= 24 ==> PathOf(base, name) == FromText(base + name)
  {
    hide FromText;
  }

  lemma {:induction false} RecordSeen(buffer: seq<byte>, ps: seq<Pair>, base: Base)
    requires SizablePairs(ps) && 0 < |ps| <= INT_MAX && IsBase(base) && Holds(buffer, 0, RecordBytes(ps))
    ensures var s := ApplyPairs(ps, Fresh(base));
            && (s.None? ==> ParseItem(buffer, base).None?)
            && (s.Some? ==>
                  && IsBase(s.value.base)
                  && ParseItem(buffer, base)
                     == match (PathOf(s.value.base.name, s.value.name), Combine(s.value.value, s.value.base.value))
                        case (Some(path), Some(value)) => Some(Parsed(Record(path, value), s.value.base, |RecordBytes(ps)|))
                        case _ => None)
  {
    hide ParseItem, PairsBytes, HeadBytes, ApplyPairs, PathOf, Combine, Holds, ReadHeadUntagged, SizablePairs, RecordBytes, IsBase, Fresh;
    var at := RecordHead(buffer, ps);
    SeenBehind(buffer, at, ps, base);
  }

  lemma {:induction false} SeenBehind(buffer: seq<byte>, at: nat, ps: seq<Pair>, base: Base)
    requires SizablePairs(ps) && 0 < |ps| <= INT_MAX && |ps| <= |buffer| / 2 && at <= |buffer| && IsBase(base)
    requires ReadHeadUntagged(buffer) == Some(Head(TMap, |ps|, at)) && Holds(buffer, at, PairsBytes(ps))
    ensures var s := ApplyPairs(ps, Fresh(base));
            && (s.None? ==> ParseItem(buffer, base).None?)
            && (s.Some? ==>
                  && IsBase(s.value.base)
                  && ParseItem(buffer, base)
                     == match (PathOf(s.value.base.name, s.value.name), Combine(s.value.value, s.value.base.value))
                        case (Some(path), Some(value)) => Some(Parsed(Record(path, value), s.value.base, at + |PairsBytes(ps)|))
                        case _ => None)
  {
    var n := |ps|;
    hide ParseItem, PairsBytes, ApplyPairs, PathOf, Combine, Holds, ReadHeadUntagged, SizablePairs, ReadPairs;
    PairsRoundTrip(buffer, at, ps, Fresh(base));
    RecordParsed(buffer, n, at, base);
  }

  lemma {:induction false} RecordHead(buffer: seq<byte>, ps: seq<Pair>) returns (at: nat)
    requires SizablePairs(ps) && 0 < |ps| <= INT_MAX && Holds(buffer, 0, RecordBytes(ps))
    ensures ReadHeadUntagged(buffer) == Some(Head(TMap, |ps|, at)) && at + |PairsBytes(ps)| == |RecordBytes(ps)|
    ensures at <= |buffer| && |ps| <= |buffer| / 2 && Holds(buffer, at, PairsBytes(ps))
  {
    var (head, n) := (HeadBytes(MAP, |ps|), |ps|);
    at := |head|;
    PairsLength(ps);
    hide PairsBytes, HeadBytes, ReadHead, SizablePairs;
    HoldsParts(buffer, 0, head, PairsBytes(ps));
    HoldsRest(buffer, 0, head);
    assert buffer[0..] == buffer;
    HeadRoundTrip(MAP, n, buffer[|head|..]);
  }

  lemma {:induction false} FreshTaken(ps: seq<Pair>, base: Base)
    ensures ApplyPairs(ps, Fresh(base)).Some? <==> AllKnown(ps) && NoneAgain(ps)
  {
    PairsTaken(ps, Fresh(base));
    hide FamilyOf, AllKnown, NoneAgain, ApplyPairs;
  }

  /** The record behind a head that was read. */
  lemma {:induction false} RecordParsed(buffer: seq<byte>, n: nat, at: nat, base: Base)
    requires ReadHeadUntagged(buffer) == Some(Head(TMap, n, at)) && 0 < n <= INT_MAX && n <= |buffer| / 2 && at <= |buffer| && IsBase(base)
    ensures ParseItem(buffer, base)
         == match ReadPairs(buffer, at, n, Fresh(base))
            case None => None
            case Some((s, end)) =>
              (match (PathOf(s.base.name, s.name), Combine(s.value, s.base.value))
               case (Some(path), Some(value)) => Some(Parsed(Record(path, value), s.base, end))
               case _ => None)
  {
    hide ReadHeadUntagged, ReadPairs, PathOf, Combine;
  }

  /** A tag before the head of a record or a document is skipped; a second one takes the place of the head. */
  lemma {:induction false} TagBeforeHead(tag: uint64, major: nat, val: uint64, rest: seq<byte>)
    requires major < 7 && (major == 1 ==> val <= INT64_MAX)
    ensures ReadHeadUntagged(HeadBytes(SEMANTIC_TAG, tag) + (HeadBytes(major, val) + rest))
         == Some(Head(MajorType(major), if major == 1 then -1 - val else val, |HeadBytes(SEMANTIC_TAG, tag)| + |HeadBytes(major, val)|))
  {
    hide HeadBytes, ReadHead;
    var (head, more) := (HeadBytes(SEMANTIC_TAG, tag), HeadBytes(major, val) + rest);
    HeadRoundTrip(SEMANTIC_TAG, tag, more);
    HeadRoundTrip(major, val, rest);
    assert (head + more)[|head|..] == more;
  }

  /** What is lost when a sum goes around in 64 bits. */
  function Turns(k: int): int {
    k * 0x1_0000_0000_0000_0000
  }

  /** A base value is added to a record's own number, in 64 bits and in the type of the record's own, so that a sum in
      range is exact; it stands for a value that is missing, and makes any other value an error. */
  lemma {:induction false} SumTold(value: Option<Value>, base: Value)
    requires IsNumber(base)
    ensures var (sum, b) := (Combine(value, Some(base)), if base.Integer? then base.i else base.u);
            match value
            case None => sum == Some(Some(base))
            case Some(Integer(i)) =>
              && sum.Some? && sum.value.Some? && sum.value.value.Integer? && (exists k: int :: sum.value.value.i == i + b + Turns(k))
              && (-0x8000_0000_0000_0000 <= i + b < 0x8000_0000_0000_0000 ==> sum.value.value.i == i + b)
            case Some(Unsigned(u)) =>
              && sum.Some? && sum.value.Some? && sum.value.value.Unsigned? && (exists k: int :: sum.value.value.u == u + b + Turns(k))
              && (0 <= u + b < 0x1_0000_0000_0000_0000 ==> sum.value.value.u == u + b)
            case _ => sum.None?
  {
    var b := NumberOf(base);
    if value.Some? && value.value.Integer? {
      Wrapped(value.value.i + b);
    } else if value.Some? && value.value.Unsigned? {
      Wrapped(value.value.u + b);
    }
    hide WrapSigned, WrapUnsigned;
  }

  lemma {:induction false} Wrapped(n: int)
    ensures (exists k: int :: WrapSigned(n) == n + Turns(k)) && (exists k: int :: WrapUnsigned(n) == n + Turns(k))
    ensures -0x8000_0000_0000_0000 <= n < 0x8000_0000_0000_0000 ==> WrapSigned(n) == n
    ensures 0 <= n < 0x1_0000_0000_0000_0000 ==> WrapUnsigned(n) == n
  {
    var q := n / 0x1_0000_0000_0000_0000;
    assert WrapUnsigned(n) == n + Turns(-q);
    assert WrapSigned(n) == n + Turns(-q) || WrapSigned(n) == n + Turns(-q - 1);
  }
}
