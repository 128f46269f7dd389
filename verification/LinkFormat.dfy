/** The payload of a register request as a reader of the link format sees it (section 2 of RFC 6690), and its query in
    bytes (core/objects.c:753-990, core/registration.c:69-253). */
module LinkFormat {
  import opened Bytes
  import R = RegisterMessage
  import Decimal

  /** "</object>", "</object/instance>" or "</object>;ver=major.minor" */
  datatype Link = Link(id: nat, instance: Option<nat>, version: Option<(nat, nat)>)

  // ----- a reader -----------------------------------------------------------------------------

  function Skip(s: seq<byte>, expected: seq<byte>): (r: Option<seq<byte>>)
    ensures r.Some? ==> |r.value| == |s| - |expected|
  {
    if expected <= s then Some(s[|expected|..]) else None
  }

  /** How many digits there are in front. */
  function DigitRun(s: seq<byte>): (n: nat)
    ensures n <= |s| && Decimal.IsNumeral(s[..n])
  {
    if s == [] || !(48 <= s[0] <= 57) then 0
    else
      assert s[..1 + DigitRun(s[1..])] == [s[0]] + s[1..][..DigitRun(s[1..])];
      1 + DigitRun(s[1..])
  }

  /** A number and what is behind it. */
  function ReadNumber(s: seq<byte>): (r: Option<(nat, seq<byte>)>)
    ensures r.Some? ==> |r.value.1| < |s|
  {
    var n := DigitRun(s);
    if n == 0 then None else Some((Decimal.Numeral(s[..n]), s[n..]))
  }

  function ReadInstance(s: seq<byte>): (r: Option<(Option<nat>, seq<byte>)>)
    ensures r.Some? ==> |r.value.1| <= |s|
  {
    match Skip(s, [47]) // "/"
    case None => Some((None, s))
    case Some(a) =>
      match ReadNumber(a)
      case None => None
      case Some((n, b)) => Some((Some(n), b))
  }

  function ReadVersion(s: seq<byte>): (r: Option<(Option<(nat, nat)>, seq<byte>)>)
    ensures r.Some? ==> |r.value.1| <= |s|
  {
    match Skip(s, [59, 118, 101, 114, 61]) // ";ver="
    case None => Some((None, s))
    case Some(a) =>
      match ReadNumber(a)
      case None => None
      case Some((major, b)) =>
        match Skip(b, [46]) // "."
        case None => None
        case Some(c) =>
          match ReadNumber(c)
          case None => None
          case Some((minor, d)) => Some((Some((major, minor)), d))
  }

  function ReadLink(s: seq<byte>): (r: Option<(Link, seq<byte>)>)
    ensures r.Some? ==> |r.value.1| < |s|
  {
    match Skip(s, [60, 47]) // "</"
    case None => None
    case Some(a) =>
      match ReadNumber(a)
      case None => None
      case Some((id, b)) =>
        match ReadInstance(b)
        case None => None
        case Some((instance, c)) =>
          match Skip(c, [62]) // ">"
          case None => None
          case Some(d) =>
            match ReadVersion(d)
            case None => None
            case Some((version, e)) =>
              match Skip(e, [44]) // ","
              case None => None
              case Some(rest) => Some((Link(id, instance, version), rest))
  }

  /** Links up to the end. */
  function ReadLinks(s: seq<byte>): Option<seq<Link>>
    decreases |s|
  {
    if s == [] then Some([])
    else
      match ReadLink(s)
      case None => None
      case Some((l, rest)) => Prepend([l], ReadLinks(rest))
  }

  function Prepend(links: seq<Link>, more: Option<seq<Link>>): Option<seq<Link>>
  {
    match more case None => None case Some(l) => Some(links + l)
  }

  // ----- what it reads ------------------------------------------------------------------------

  lemma {:induction false} NumberReads(n: nat, rest: seq<byte>)
    requires rest != [] && !(48 <= rest[0] <= 57)
    ensures ReadNumber(Decimal.Digits(n) + rest) == Some((n, rest))
  {
    var s := Decimal.Digits(n) + rest;
    Decimal.NumeralOfDigits(n);
    RunOfDigits(Decimal.Digits(n), rest);
    assert s[..|Decimal.Digits(n)|] == Decimal.Digits(n);
  }

  lemma {:induction false} RunOfDigits(s: seq<byte>, rest: seq<byte>)
    requires Decimal.IsNumeral(s) && rest != [] && !(48 <= rest[0] <= 57)
    ensures DigitRun(s + rest) == |s|
  {
    if s == [] {
      assert s + rest == rest;
    } else {
      assert Decimal.IsDigit(s[0]) && (s + rest)[1..] == s[1..] + rest;
      RunOfDigits(s[1..], rest);
    }
  }

  lemma {:induction false} SkipReads(expected: seq<byte>, rest: seq<byte>)
    ensures Skip(expected + rest, expected) == Some(rest)
  {
  }

  function InstanceText(instance: Option<nat>): seq<byte> {
    if instance.Some? then [47] + Decimal.Digits(instance.value) else []
  }

  function VersionText(version: Option<(nat, nat)>): seq<byte> {
    if version.Some? then [59, 118, 101, 114, 61] + (Decimal.Digits(version.value.0) + ([46] + Decimal.Digits(version.value.1))) else []
  }

  function LinkText(l: Link): seq<byte> {
    [60, 47] + (Decimal.Digits(l.id) + (InstanceText(l.instance) + ([62] + (VersionText(l.version) + [44]))))
  }

  lemma {:induction false} InstanceReads(instance: Option<nat>, rest: seq<byte>)
    requires rest != [] && rest[0] == 62
    ensures ReadInstance(InstanceText(instance) + rest) == Some((instance, rest))
    ensures InstanceText(instance) + rest != [] && !(48 <= (InstanceText(instance) + rest)[0] <= 57)
  {
    hide ReadNumber, Decimal.Digits;
    if instance.Some? {
      var digits := Decimal.Digits(instance.value);
      NumberReads(instance.value, rest);
      SkipReads([47], digits + rest);
      ConcatAssociative([47], digits, rest);
    } else {
      assert [] + rest == rest;
    }
  }

  lemma {:induction false} VersionReads(version: Option<(nat, nat)>, rest: seq<byte>)
    requires rest != [] && rest[0] == 44
    ensures ReadVersion(VersionText(version) + rest) == Some((version, rest))
  {
    hide ReadNumber, Decimal.Digits, Skip;
    if version.Some? {
      var (start: seq<byte>, major, minor) := ([59, 118, 101, 114, 61], Decimal.Digits(version.value.0), Decimal.Digits(version.value.1));
      NumberReads(version.value.1, rest);
      SkipReads([46], minor + rest);
      NumberReads(version.value.0, [46] + (minor + rest));
      SkipReads(start, major + ([46] + (minor + rest)));
      assert VersionText(version) + rest == start + (major + ([46] + (minor + rest)));
    } else {
      NoVersion(rest);
    }
  }

  lemma {:induction false} NoVersion(rest: seq<byte>)
    requires rest != [] && rest[0] == 44
    ensures VersionText(None) + rest == rest && Skip(rest, [59, 118, 101, 114, 61]) == None
  {
  }

  /** A link is read from its text, whatever follows. */
  lemma {:induction false} LinkReads(l: Link, rest: seq<byte>)
    ensures ReadLink(LinkText(l) + rest) == Some((l, rest))
  {
    hide ReadNumber, ReadInstance, ReadVersion, Decimal.Digits, InstanceText, VersionText, Skip;
    var e := [44] + rest;
    var d := VersionText(l.version) + e;
    var c := [62] + d;
    var b := InstanceText(l.instance) + c;
    var a := Decimal.Digits(l.id) + b;
    SkipReads([44], rest);
    VersionReads(l.version, e);
    SkipReads([62], d);
    InstanceReads(l.instance, c);
    NumberReads(l.id, b);
    SkipReads([60, 47], a);
    assert LinkText(l) + rest == [60, 47] + a;
  }

  /** This text is these links, whatever follows. */
  ghost predicate Tells(text: seq<byte>, links: seq<Link>) {
    forall rest: seq<byte> :: ReadLinks(text + rest) == Prepend(links, ReadLinks(rest))
  }

  lemma {:induction false} LinkTells(l: Link)
    ensures Tells(LinkText(l), [l])
  {
    forall rest: seq<byte> ensures ReadLinks(LinkText(l) + rest) == Prepend([l], ReadLinks(rest)) {
      LinkReads(l, rest);
      hide ReadLink;
      assert LinkText(l) + rest != [];
    }
  }

  lemma {:induction false} NothingTells()
    ensures Tells([], [])
  {
    forall rest: seq<byte> ensures ReadLinks([] + rest) == Prepend([], ReadLinks(rest)) {
      assert [] + rest == rest;
      if ReadLinks(rest).Some? { assert [] + ReadLinks(rest).value == ReadLinks(rest).value; }
    }
  }

  lemma {:induction false} BothTell(a: seq<byte>, la: seq<Link>, b: seq<byte>, lb: seq<Link>)
    requires Tells(a, la) && Tells(b, lb)
    ensures Tells(a + b, la + lb)
  {
    hide ReadLinks;
    forall rest: seq<byte> ensures ReadLinks(a + b + rest) == Prepend(la + lb, ReadLinks(rest)) {
      ConcatAssociative(a, b, rest);
      if ReadLinks(rest).Some? { ConcatAssociative(la, lb, ReadLinks(rest).value); }
    }
  }

  // ----- the payload --------------------------------------------------------------------------

  /** The links of one object: itself when it has a version, or no instances; and its instances. */
  function LinksOf(o: R.Object): seq<Link>
  {
    (if o.major != 0 || o.minor != 0 then [Link(o.id, None, Some((o.major, o.minor)))]
     else if o.instances == [] then [Link(o.id, None, None)]
     else [])
    + Instances(o.id, o.instances)
  }

  function Instances(id: nat, instances: seq<uint16>): (links: seq<Link>)
    ensures |links| == |instances| && forall i :: 0 <= i < |links| ==> links[i] == Link(id, Some(instances[i]), None)
  {
    if instances == [] then []
    else Instances(id, instances[..|instances| - 1]) + [Link(id, Some(instances[|instances| - 1]), None)]
  }

  /** All objects but the Security object, which is object 0. */
  function AllLinks(objects: seq<R.Object>): seq<Link>
  {
    if objects == [] then []
    else
      var o := objects[|objects| - 1];
      AllLinks(objects[..|objects| - 1]) + if o.id == 0 then [] else LinksOf(o)
  }

  /** A text constant is its characters. */
  lemma {:induction false} AsciiIs(s: string, b: seq<byte>)
    requires |s| == |b| && forall i :: 0 <= i < |s| ==> b[i] == s[i] as int % 256
    ensures R.Ascii(s) == b
  {
    if s != "" {
      AsciiIs(s[1..], b[1..]);
    }
  }

  lemma {:induction false} Texts()
    ensures R.VersionStart() == [62] + [59, 118, 101, 114, 61] && R.PathEnd() == [62, 44]
  {
    hide R.Ascii;
    AsciiIs(">;ver=", [62, 59, 118, 101, 114, 61]);
    AsciiIs(">,", [62, 44]);
  }

  lemma {:induction false} VersionIsLink(o: R.Object)
    ensures R.VersionText(o) == LinkText(Link(o.id, None, Some((o.major, o.minor))))
  {
    Texts();
    hide Decimal.Digits, R.Ascii, R.VersionStart;
    var (id, major, minor) := (Decimal.Digits(o.id), Decimal.Digits(o.major), Decimal.Digits(o.minor));
    assert R.VersionText(o) == [60, 47] + id + ([62] + [59, 118, 101, 114, 61]) + major + [46] + minor + [44];
  }

  lemma {:induction false} PathIsLink(id: uint16)
    ensures R.Path(id) + R.PathEnd() == LinkText(Link(id, None, None))
  {
    Texts();
    hide Decimal.Digits, R.PathEnd;
  }

  lemma {:induction false} InstanceIsLink(id: uint16, instance: uint16)
    ensures R.Template(id) + Decimal.Digits(instance) + R.PathEnd() == LinkText(Link(id, Some(instance), None))
  {
    Texts();
    hide Decimal.Digits, R.PathEnd;
  }

  lemma {:induction false} InstancesTell(id: uint16, instances: seq<uint16>)
    ensures Tells(R.InstancesText(id, instances), Instances(id, instances))
  {
    hide Tells, LinkText, R.Template, R.PathEnd, Decimal.Digits;
    if instances == [] {
      NothingTells();
    } else {
      var (front, last) := (instances[..|instances| - 1], instances[|instances| - 1]);
      InstancesTell(id, front);
      InstanceIsLink(id, last);
      LinkTells(Link(id, Some(last), None));
      BothTell(R.InstancesText(id, front), Instances(id, front), LinkText(Link(id, Some(last), None)), [Link(id, Some(last), None)]);
    }
  }

  lemma {:induction false} ObjectTells(o: R.Object)
    ensures Tells(R.ObjectText(o), LinksOf(o))
  {
    hide Tells, LinkText, R.InstancesText, Instances, R.VersionText, R.Path, R.PathEnd;
    InstancesTell(o.id, o.instances);
    var links := LinksOf(o)[..|LinksOf(o)| - |o.instances|];
    if o.major != 0 || o.minor != 0 {
      var l := Link(o.id, None, Some((o.major, o.minor)));
      VersionIsLink(o);
      LinkTells(l);
      BothTell(LinkText(l), [l], R.InstancesText(o.id, o.instances), Instances(o.id, o.instances));
    } else if o.instances == [] {
      var l := Link(o.id, None, None);
      PathIsLink(o.id);
      LinkTells(l);
      BothTell(LinkText(l), [l], R.InstancesText(o.id, o.instances), Instances(o.id, o.instances));
    } else {
      NothingTells();
      BothTell([], [], R.InstancesText(o.id, o.instances), Instances(o.id, o.instances));
    }
  }

  lemma {:induction false} ObjectsTell(objects: seq<R.Object>)
    ensures Tells(R.ObjectsText(objects), AllLinks(objects))
  {
    hide Tells, R.ObjectText, LinksOf;
    NothingTells();
    if objects != [] {
      var (front, o) := (objects[..|objects| - 1], objects[|objects| - 1]);
      ObjectsTell(front);
      ObjectTells(o);
      if o.id == 0 {
        BothTell(R.ObjectsText(front), AllLinks(front), [], []);
      } else {
        BothTell(R.ObjectsText(front), AllLinks(front), R.ObjectText(o), LinksOf(o));
      }
    }
  }

  /** Behind a first link of its own, the payload with its last comma is read as the links of the objects: their versions,
      and their instances, in the order of the list. */
  lemma {:induction false} PayloadTells(altPath: seq<byte>, objects: seq<R.Object>)
    ensures var head := [60] + (if altPath == [] then [47] else altPath) + ResourceTypeText();
            R.PayloadText(altPath, objects) == head + R.ObjectsText(objects)
    ensures ReadLinks(R.ObjectsText(objects)) == Some(AllLinks(objects))
  {
    ObjectsTell(objects);
    HeadTexts();
    hide R.ObjectsText, R.ResourceType, R.Start, R.DefaultPath;
    assert R.ObjectsText(objects) + [] == R.ObjectsText(objects);
    assert ReadLinks([]) == Some([]);
    assert AllLinks(objects) + [] == AllLinks(objects);
  }

  /** `>;rt="oma.lwm2m";ct=112,` in bytes */
  function ResourceTypeText(): seq<byte> {
    [62, 59, 114, 116, 61, 34, 111, 109, 97, 46, 108, 119, 109, 50, 109, 34, 59, 99, 116, 61, 49, 49, 50, 44]
  }

  lemma {:induction false} HeadTexts()
    ensures R.Start() == [60] && R.DefaultPath() == [47] && R.ResourceType() == ResourceTypeText()
  {
    hide R.Ascii;
    AsciiIs("<", [60]);
    AsciiIs("/", [47]);
    AsciiIs(">;rt=\"oma.lwm2m\";ct=112,", ResourceTypeText());
  }

  // ----- the query ----------------------------------------------------------------------------

  /** The query in bytes: `?lwm2m=1.1&ep=` and the name, then, where there is one, `&sms=` and the number, `&b=` and the
      letters of the bindings, `&Q`, and `&lt=` and the lifetime. */
  lemma {:induction false} QueryTold(r: R.Registration)
    ensures R.QueryText(r)
         == [63, 108, 119, 109, 50, 109, 61, 49, 46, 49, 38, 101, 112, 61] + r.name
            + (if r.msisdn.Some? then [38, 115, 109, 115, 61] + r.msisdn.value else [])
            + (if r.u || r.t || r.s || r.n
               then [38, 98, 61] + (if r.u then [85] else []) + (if r.t then [84] else []) + (if r.s then [83] else []) + (if r.n then [78] else [])
               else [])
            + (if r.q then [38, 81] else [])
            + (if r.lifetime != 0 then [38, 108, 116, 61] + Decimal.Digits(r.lifetime) else [])
  {
    hide R.Ascii, Decimal.Digits;
    AsciiIs("?lwm2m=1.1&ep=", [63, 108, 119, 109, 50, 109, 61, 49, 46, 49, 38, 101, 112, 61]);
    AsciiIs("&sms=", [38, 115, 109, 115, 61]);
    AsciiIs("&b=", [38, 98, 61]);
    AsciiIs("&Q", [38, 81]);
    AsciiIs("&lt=", [38, 108, 116, 61]);
  }
}
