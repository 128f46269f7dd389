/** The payload and the query of a register request: a pass that computes the size, and a writer
    (core/objects.c:753-990, core/registration.c:69-253). */
module RegisterMessage {
  import opened Bytes
  import Decimal

  const SECURITY_OBJECT: nat := 0
  const OSCORE_OBJECT: nat := 21
  const OBJECT_MIN_LEN: nat := 5

  /** An object of the client; version 0.0 stands for no version. */
  datatype Object = Object(id: uint16, major: uint8, minor: uint8, instances: seq<uint16>)

  function Ascii(s: string): (b: seq<byte>)
    ensures |b| == |s|
  {
    if s == "" then [] else [(s[0] as int) % 256] + Ascii(s[1..])
  }

  function Start(): (b: seq<byte>) ensures |b| == 1 { Ascii("<") }
  function DefaultPath(): (b: seq<byte>) ensures |b| == 1 { Ascii("/") }
  function ResourceType(): (b: seq<byte>) ensures |b| == 24 { Ascii(">;rt=\"oma.lwm2m\";ct=112,") }
  function PathEnd(): (b: seq<byte>) ensures |b| == 2 { Ascii(">,") }
  function VersionStart(): (b: seq<byte>) ensures |b| == 6 { Ascii(">;ver=") }

  const LESS: byte := 60
  const SLASH: byte := 47
  const DOT: byte := 46
  const COMMA: byte := 44

  // ----- what is to be written ----------------------------------------------------------------

  /** "</3" */
  function Path(id: uint16): seq<byte> {
    [LESS, SLASH] + Decimal.Digits(id)
  }

  /** "</3/" */
  function Template(id: uint16): seq<byte> {
    Path(id) + [SLASH]
  }

  /** "</3/0>," for every instance */
  function InstancesText(id: uint16, instances: seq<uint16>): seq<byte>
  {
    if instances == [] then []
    else InstancesText(id, instances[..|instances| - 1]) + (Template(id) + Decimal.Digits(instances[|instances| - 1]) + PathEnd())
  }

  predicate HasVersion(o: Object) {
    o.major != 0 || o.minor != 0
  }

  /** "</3>;ver=1.2," */
  function VersionText(o: Object): seq<byte> {
    Path(o.id) + VersionStart() + Decimal.Digits(o.major) + [DOT] + Decimal.Digits(o.minor) + [COMMA]
  }

  /** One object: its version if it has one, its instances, or else just its path. */
  function ObjectText(o: Object): seq<byte>
  {
    (if HasVersion(o) then VersionText(o) else if o.instances == [] then Path(o.id) + PathEnd() else [])
    + InstancesText(o.id, o.instances)
  }

  function ObjectsText(objects: seq<Object>): seq<byte>
  {
    if objects == [] then []
    else
      var o := objects[|objects| - 1];
      ObjectsText(objects[..|objects| - 1]) + (if o.id == SECURITY_OBJECT then [] else ObjectText(o))
  }

  /** The payload with the comma that is dropped in the end. */
  function PayloadText(altPath: seq<byte>, objects: seq<Object>): seq<byte>
  {
    Start() + (if altPath == [] then DefaultPath() else altPath) + ResourceType() + ObjectsText(objects)
  }

  // ----- the size pass ------------------------------------------------------------------------

  function ObjectsLength(objects: seq<Object>): nat
  {
    if objects == [] then 0
    else
      var o := objects[|objects| - 1];
      ObjectsLength(objects[..|objects| - 1]) + if o.id == SECURITY_OBJECT || o.id == OSCORE_OBJECT then 0 else |ObjectText(o)|
  }

  predicate WithoutOscore(objects: seq<Object>) {
    forall i :: 0 <= i < |objects| ==> objects[i].id != OSCORE_OBJECT
  }

  /** The size pass leaves out the OSCORE object, which the writer does not: they agree exactly without it. */
  lemma {:induction false} ObjectsLengthExact(objects: seq<Object>)
    ensures ObjectsLength(objects) <= |ObjectsText(objects)|
    ensures ObjectsLength(objects) == |ObjectsText(objects)| <==> WithoutOscore(objects)
  {
    if objects != [] {
      var (earlier, o) := (objects[..|objects| - 1], objects[|objects| - 1]);
      ObjectsLengthExact(earlier);
      assert WithoutOscore(objects) <==> WithoutOscore(earlier) && o.id != OSCORE_OBJECT by {
        assert forall i :: 0 <= i < |earlier| ==> objects[i] == earlier[i];
      }
      ObjectTextNotEmpty(o);
      hide ObjectText;
    }
  }

  lemma {:induction false} ObjectTextNotEmpty(o: Object)
    ensures ObjectText(o) != []
  {
  }

  /** The length of one object in `object_getRegisterPayloadBufferLength`: the same steps as the writer takes. */
  method ObjectLength(o: Object) returns (index: nat)
    ensures index == |ObjectText(o)|
  {
    var start := 0;
    var length := |Template(o.id)|;
    index := length;
    if HasVersion(o) {
      index := index - 1 + |VersionStart()| + |Decimal.Digits(o.major)| + 1 + |Decimal.Digits(o.minor)| + 1;
      if o.instances != [] {
        start := index;
        index := index + length;
      }
    } else if o.instances == [] {
      index := index - 1 + |PathEnd()|;
    }
    ghost var before := if HasVersion(o) then |VersionText(o)| else 0;
    if o.instances != [] {
      var i := 0;
      while i < |o.instances|
        invariant 0 <= i <= |o.instances| && start == before
        invariant index == (if i == 0 then start + length else before + |InstancesText(o.id, o.instances[..i])|)
        invariant i > 0 ==> index > start + length
      {
        assert o.instances[..i + 1][..i] == o.instances[..i];
        if index != start + length {
          index := index + length;
        }
        index := index + |Decimal.Digits(o.instances[i])| + |PathEnd()|;
        i := i + 1;
      }
      assert o.instances[..i] == o.instances;
    }
  }

  lemma {:induction false} PayloadLength(altPath: seq<byte>, objects: seq<Object>)
    ensures |PayloadText(altPath, objects)| == 1 + (if altPath == [] then 1 else |altPath|) + 24 + |ObjectsText(objects)|
  {
    hide Ascii, ObjectsText;
  }

  /** `object_getRegisterPayloadBufferLength` */
  method GetPayloadBufferLength(altPath: seq<byte>, objects: seq<Object>) returns (index: nat)
    ensures index == 1 + (if altPath == [] then 1 else |altPath|) + 24 + ObjectsLength(objects) + 1
    ensures index == |PayloadText(altPath, objects)| + 1 <==> WithoutOscore(objects)
  {
    ObjectsLengthExact(objects);
    PayloadLength(altPath, objects);
    hide Ascii, PayloadText, ObjectsText, ObjectText, WithoutOscore;
    index := |Start()| + (if altPath == [] then |DefaultPath()| else |altPath|) + |ResourceType()|;
    var k := 0;
    while k < |objects|
      invariant 0 <= k <= |objects|
      invariant index == 1 + (if altPath == [] then 1 else |altPath|) + 24 + ObjectsLength(objects[..k])
    {
      assert objects[..k + 1][..k] == objects[..k];
      if objects[k].id != SECURITY_OBJECT && objects[k].id != OSCORE_OBJECT {
        var n := ObjectLength(objects[k]);
        index := index + n;
      }
      k := k + 1;
    }
    assert objects[..k] == objects;
    index := index + 1;
  }

  // ----- writing ------------------------------------------------------------------------------

  /** The buffer begins with this text, and `index` is behind it. */
  ghost predicate Filled(buffer: seq<byte>, index: nat, text: seq<byte>) {
    index == |text| && index <= |buffer| && buffer[..index] == text
  }

  lemma {:induction false} FilledMore(s0: seq<byte>, s1: seq<byte>, index: nat, text: seq<byte>, more: seq<byte>)
    requires Filled(s0, index, text) && Wrote(s0, s1, index, more)
    ensures Filled(s1, index + |more|, text + more)
  {
  }

  lemma {:induction false} FilledLess(s: seq<byte>, index: nat, text: seq<byte>, last: byte)
    requires Filled(s, index, text + [last])
    ensures 0 < index && Filled(s, index - 1, text)
  {
    assert s[..index - 1] == s[..index][..index - 1];
  }

  /** `utils_stringCopy` */
  method Append(buffer: array<byte>, index: nat, s: seq<byte>, ghost text: seq<byte>) returns (next: nat)
    requires index <= buffer.Length
    modifies buffer
    ensures index <= next <= buffer.Length
    ensures Filled(old(buffer[..]), index, text) && |text| + |s| <= buffer.Length ==> Filled(buffer[..], next, text + s)
  {
    ghost var s0 := buffer[..];
    var n := Min(|s|, buffer.Length - index);
    CopyBytes(buffer, index, s[..n]);
    if Filled(s0, index, text) && |text| + |s| <= buffer.Length {
      assert s[..n] == s;
      FilledMore(s0, buffer[..], index, text, s);
    }
    return index + n;
  }

  /** `utils_uintToText`, whose failure is not noticed. */
  method AppendNumber(buffer: array<byte>, index: nat, n: uint64, ghost text: seq<byte>) returns (next: nat)
    requires index <= buffer.Length
    modifies buffer
    ensures index <= next <= buffer.Length
    ensures var s := Decimal.Digits(n);
            Filled(old(buffer[..]), index, text) && |text| + |s| <= buffer.Length ==> index < next && Filled(buffer[..], next, text + s)
  {
    ghost var s0 := buffer[..];
    var res := Decimal.PrintUnsigned(n, buffer, index, buffer.Length - index);
    if res > 0 && Filled(s0, index, text) {
      FilledMore(s0, buffer[..], index, text, Decimal.Digits(n));
    }
    if res > 0 { WroteFits(s0, buffer[..], index, Decimal.Digits(n)); }
    return index + res;
  }

  lemma {:induction false} WroteFits(before: seq<byte>, after: seq<byte>, at: nat, bytes: seq<byte>)
    requires Wrote(before, after, at, bytes)
    ensures at + |bytes| <= |after|
  {
  }

  /** One character, if there is room. */
  method AppendByte(buffer: array<byte>, index: nat, c: byte, ghost text: seq<byte>) returns (ok: bool)
    requires index <= buffer.Length
    modifies buffer
    ensures ok == (index < buffer.Length)
    ensures Filled(old(buffer[..]), index, text) && ok ==> Filled(buffer[..], index + 1, text + [c])
  {
    if index >= buffer.Length { return false; }
    ghost var s0 := buffer[..];
    buffer[index] := c;
    assert Wrote(s0, buffer[..], index, [c]);
    if Filled(s0, index, text) { FilledMore(s0, buffer[..], index, text, [c]); }
    return true;
  }

  /** `prv_getObjectTemplate`: -1 when the room does not suffice. */
  method AppendTemplate(buffer: array<byte>, index: nat, id: uint16, ghost text: seq<byte>) returns (length: int)
    requires index <= buffer.Length
    modifies buffer
    ensures length == -1 || (3 <= length && index + length <= buffer.Length)
    ensures var s := Template(id);
            Filled(old(buffer[..]), index, text) && |text| + |s| < buffer.Length ==> length == |s| && Filled(buffer[..], index + length, text + s)
  {
    if buffer.Length - index < OBJECT_MIN_LEN { return -1; }
    ghost var s0 := buffer[..];
    buffer[index] := LESS;
    buffer[index + 1] := SLASH;
    ghost var s1 := buffer[..];
    assert Wrote(s0, s1, index, [LESS, SLASH]);
    var res := Decimal.PrintUnsigned(id, buffer, index + 2, buffer.Length - index - 2);
    if res == 0 { return -1; }
    ghost var s2 := buffer[..];
    WroteMore(s0, s1, s2, index, [LESS, SLASH], Decimal.Digits(id));
    WroteFits(s0, s2, index, Path(id));
    if buffer.Length - index - 2 - res < OBJECT_MIN_LEN - 3 { return -1; }
    buffer[index + 2 + res] := SLASH;
    assert Wrote(s2, buffer[..], index + 2 + res, [SLASH]);
    WroteMore(s0, s2, buffer[..], index, Path(id), [SLASH]);
    if Filled(s0, index, text) { FilledMore(s0, buffer[..], index, text, Template(id)); }
    return 3 + res;
  }

  /** `memcpy` of the template that was written before. */
  method AppendCopy(buffer: array<byte>, index: nat, start: nat, length: nat, ghost text: seq<byte>, ghost s: seq<byte>) returns (ok: bool)
    requires index <= buffer.Length && start + length <= index
    modifies buffer
    ensures ok ==> index + length <= buffer.Length
    ensures Filled(old(buffer[..]), index, text) && old(buffer[start..start + length]) == s && |text| + length < buffer.Length ==>
              ok && Filled(buffer[..], index + length, text + s) && buffer[start..start + length] == s
  {
    if buffer.Length - index <= length { return false; }
    ghost var s0 := buffer[..];
    CopyBytes(buffer, index, buffer[start..start + length]);
    if Filled(s0, index, text) { FilledMore(s0, buffer[..], index, text, s0[start..start + length]); }
    assert buffer[start..start + length] == buffer[..][..index + length][..index][start..start + length];
    return true;
  }

  /** The version part of `object_getRegisterPayload`. */
  method AppendVersion(buffer: array<byte>, index: nat, o: Object, ghost text: seq<byte>) returns (ok: bool, next: nat)
    requires index <= buffer.Length
    modifies buffer
    ensures next <= buffer.Length
    ensures Filled(old(buffer[..]), index, text + Path(o.id)) && |text| + |VersionText(o)| <= buffer.Length ==>
              ok && Filled(buffer[..], next, text + VersionText(o))
  {
    ghost var enough := Filled(buffer[..], index, text + Path(o.id)) && |text| + |VersionText(o)| <= buffer.Length;
    VersionParts(text, o);
    hide Filled, VersionText, Path, Ascii, Decimal.Digits;
    ghost var done := text + Path(o.id);
    next := Append(buffer, index, VersionStart(), done);
    done := done + VersionStart();
    next := AppendNumber(buffer, next, o.major, done);
    done := done + Decimal.Digits(o.major);
    ok := AppendByte(buffer, next, DOT, done);
    if enough { FilledIndex(buffer[..], next + 1, done + [DOT]); }
    if !ok { return; }
    done := done + [DOT];
    next := AppendNumber(buffer, next + 1, o.minor, done);
    done := done + Decimal.Digits(o.minor);
    ok := AppendByte(buffer, next, COMMA, done);
    if !ok { return; }
    next := next + 1;
  }

  lemma {:induction false} FilledIndex(s: seq<byte>, index: nat, text: seq<byte>)
    requires Filled(s, index, text)
    ensures index == |text| <= |s|
  {
  }

  lemma {:induction false} VersionParts(text: seq<byte>, o: Object)
    ensures text + VersionText(o) == text + Path(o.id) + VersionStart() + Decimal.Digits(o.major) + [DOT] + Decimal.Digits(o.minor) + [COMMA]
    ensures |VersionText(o)| == |Path(o.id)| + 6 + |Decimal.Digits(o.major)| + 1 + |Decimal.Digits(o.minor)| + 1
  {
    hide Path, Ascii, Decimal.Digits;
  }

  lemma {:induction false} InstancesLength(id: uint16, instances: seq<uint16>, i: nat)
    requires i <= |instances|
    ensures |InstancesText(id, instances[..i])| <= |InstancesText(id, instances)|
    decreases |instances| - i
  {
    if i < |instances| {
      InstancesLength(id, instances, i + 1);
      assert instances[..i + 1][..i] == instances[..i];
    } else {
      assert instances[..i] == instances;
    }
  }

  /** The text of one more instance. */
  lemma {:induction false} InstanceStep(id: uint16, instances: seq<uint16>, i: nat, base: seq<byte>)
    requires i < |instances|
    ensures var (done, number) := (InstancesText(id, instances[..i]), Decimal.Digits(instances[i]));
            && base + InstancesText(id, instances[..i + 1]) == base + done + Template(id) + number + PathEnd()
            && |done| + |Template(id)| + |number| + 2 <= |InstancesText(id, instances)|
  {
    assert instances[..i + 1][..i] == instances[..i];
    InstancesLength(id, instances, i + 1);
    hide Template, Decimal.Digits, PathEnd;
    var (done, number) := (InstancesText(id, instances[..i]), Decimal.Digits(instances[i]));
    ConcatAssociative(base, done, Template(id) + number + PathEnd());
    ConcatAssociative(base + done, Template(id), number);
    ConcatAssociative(base + done, Template(id) + number, PathEnd());
  }

  /** The template of the instances lies where the writer looks for it. */
  ghost predicate HasTemplate(buffer: seq<byte>, start: nat, length: nat, id: uint16) {
    start + length <= |buffer| && buffer[start..start + length] == Template(id)
  }

  /** One instance: the template, unless it is already there, its number and the end. */
  method AppendInstance(buffer: array<byte>, index: nat, start: nat, length: nat, id: uint16, instance: uint16, ghost text: seq<byte>)
    returns (ok: bool, next: nat)
    requires start + length <= index <= buffer.Length
    modifies buffer
    ensures next <= buffer.Length && (ok ==> start + length < next)
    ensures (&& HasTemplate(old(buffer[..]), start, length, id)
             && Filled(old(buffer[..]), index, if index == start + length then text + Template(id) else text)
             && start + length <= |text + Template(id)| && |text + Template(id) + Decimal.Digits(instance) + PathEnd()| < buffer.Length)
            ==> (&& ok && Filled(buffer[..], next, text + Template(id) + Decimal.Digits(instance) + PathEnd())
                 && HasTemplate(buffer[..], start, length, id))
  {
    next := index;
    ghost var enough := (&& HasTemplate(buffer[..], start, length, id)
                         && Filled(buffer[..], index, if index == start + length then text + Template(id) else text)
                         && start + length <= |text + Template(id)|
                         && |text + Template(id) + Decimal.Digits(instance) + PathEnd()| < buffer.Length);
    ghost var done := text + Template(id);
    if next != start + length {
      ok := AppendCopy(buffer, next, start, length, text, Template(id));
      if !ok { return; }
      next := next + length;
    }
    assert enough ==> Filled(buffer[..], next, done) && HasTemplate(buffer[..], start, length, id);
    var before := next;
    ghost var s1 := buffer[..];
    next := AppendNumber(buffer, before, instance, done);
    if next <= before { return false, before; }
    ghost var s2 := buffer[..];
    assert enough ==> HasTemplate(s2, start, length, id) by { if enough { TemplateKept(s1, s2, before, done, Decimal.Digits(instance), start, length, id); } }
    next := Append(buffer, next, PathEnd(), done + Decimal.Digits(instance));
    if enough { TemplateKept(s2, buffer[..], |done + Decimal.Digits(instance)|, done + Decimal.Digits(instance), PathEnd(), start, length, id); }
    ok := true;
  }

  lemma {:induction false} TemplateKept(s0: seq<byte>, s1: seq<byte>, index: nat, text: seq<byte>, more: seq<byte>, start: nat, length: nat, id: uint16)
    requires Filled(s0, index, text) && Filled(s1, |text + more|, text + more) && start + length <= index
    requires HasTemplate(s0, start, length, id)
    ensures HasTemplate(s1, start, length, id)
  {
    assert s1[..|text + more|] == text + more && s0[..index] == text;
    SliceOfPrefix(s1, |text + more|, start, start + length);
    SliceOfPrefix(s0, index, start, start + length);
    assert (text + more)[start..start + length] == text[start..start + length];
  }

  lemma {:induction false} SliceOfPrefix(s: seq<byte>, n: nat, a: nat, b: nat)
    requires a <= b <= n <= |s|
    ensures s[..n][a..b] == s[a..b]
  {
  }

  /** What comes before the instances of an object that has some. */
  function BeforeInstances(o: Object): seq<byte> {
    if HasVersion(o) then VersionText(o) else []
  }

  /** The version of an object, in place of the last character of its template, and the template of its instances. */
  method AppendVersionHead(buffer: array<byte>, index: nat, o: Object, ghost text: seq<byte>) returns (ok: bool, next: nat, start: nat, length: nat)
    requires 0 < index <= buffer.Length && HasVersion(o)
    modifies buffer
    ensures next <= buffer.Length && (ok && o.instances != [] ==> next == start + length)
    ensures (Filled(old(buffer[..]), index, text + Path(o.id) + [SLASH]) && |text| + |ObjectText(o)| < buffer.Length) ==>
              ok && Filled(buffer[..], next, if o.instances == [] then text + ObjectText(o) else text + BeforeInstances(o) + Template(o.id))
              && (o.instances != [] ==> HasTemplate(buffer[..], start, length, o.id))
  {
    ghost var enough := Filled(buffer[..], index, text + Path(o.id) + [SLASH]) && |text| + |ObjectText(o)| < buffer.Length;
    ObjectParts(o, text);
    assert BeforeInstances(o) == VersionText(o);
    hide Decimal.Digits, VersionText, InstancesText, Filled, Ascii, ObjectText, Path, HasTemplate, BeforeInstances, PathEnd, Template;
    if enough { FilledLess(buffer[..], index, text + Path(o.id), SLASH); }
    start, length := 0, 0;
    ok, next := AppendVersion(buffer, index - 1, o, text);
    if !ok || o.instances == [] { return; }
    start := next;
    var n := AppendTemplate(buffer, next, o.id, text + VersionText(o));
    if n == -1 { return false, next, 0, 0; }
    length, next := n, next + n;
    if enough { TemplateThere(buffer[..], next, text + VersionText(o), start, length, o.id); }
  }

  /** One object of `object_getRegisterPayload`, as far as its instances: where they find their template. */
  method AppendHead(buffer: array<byte>, index: nat, o: Object, ghost text: seq<byte>) returns (ok: bool, next: nat, start: nat, length: nat)
    requires index <= buffer.Length
    modifies buffer
    ensures next <= buffer.Length && (ok && o.instances != [] ==> next == start + length)
    ensures (Filled(old(buffer[..]), index, text) && |text| + |ObjectText(o)| < buffer.Length) ==>
              ok && Filled(buffer[..], next, if o.instances == [] then text + ObjectText(o) else text + BeforeInstances(o) + Template(o.id))
              && (o.instances != [] ==> HasTemplate(buffer[..], start, length, o.id))
  {
    ghost var enough := Filled(buffer[..], index, text) && |text| + |ObjectText(o)| < buffer.Length;
    ObjectParts(o, text);
    SlashLast(text, o.id);
    assert !HasVersion(o) ==> text + BeforeInstances(o) == text;
    hide Decimal.Digits, VersionText, InstancesText, Filled, Ascii, ObjectText, Path, HasTemplate, BeforeInstances, PathEnd, Template;
    var n := AppendTemplate(buffer, index, o.id, text);
    if n == -1 { return false, index, 0, 0; }
    start, length, next := index, n, index + n;
    if HasVersion(o) {
      ok, next, start, length := AppendVersionHead(buffer, next, o, text);
    } else if o.instances == [] {
      if enough { FilledLess(buffer[..], next, text + Path(o.id), SLASH); }
      next := Append(buffer, next - 1, PathEnd(), text + Path(o.id));
      ok := true;
    } else {
      if enough { TemplateThere(buffer[..], next, text, start, length, o.id); }
      ok := true;
    }
  }

  lemma {:induction false} SlashLast(text: seq<byte>, id: uint16)
    ensures text + Template(id) == text + Path(id) + [SLASH]
  {
  }

  /** One object of `object_getRegisterPayload`. */
  method AppendObject(buffer: array<byte>, index: nat, o: Object, ghost text: seq<byte>) returns (ok: bool, next: nat)
    requires index <= buffer.Length
    modifies buffer
    ensures next <= buffer.Length
    ensures Filled(old(buffer[..]), index, text) && |text| + |ObjectText(o)| < buffer.Length ==> ok && Filled(buffer[..], next, text + ObjectText(o))
  {
    ObjectParts(o, text);
    hide VersionText, InstancesText, Filled, Ascii, ObjectText, Path, HasTemplate, BeforeInstances, PathEnd, Template;
    var start, length;
    ok, next, start, length := AppendHead(buffer, index, o, text);
    if !ok || o.instances == [] { return; }
    ok, next := AppendInstances(buffer, next, start, length, o, text + BeforeInstances(o));
    assert o.instances != [] ==> text + BeforeInstances(o) + InstancesText(o.id, o.instances) == text + ObjectText(o);
  }

  lemma {:induction false} TemplateThere(s: seq<byte>, index: nat, text: seq<byte>, start: nat, length: nat, id: uint16)
    requires Filled(s, index, text + Template(id)) && index == start + length && length == |Template(id)|
    ensures HasTemplate(s, start, length, id)
  {
    assert s[start..start + length] == s[..index][start..];
  }

  lemma {:induction false} ObjectParts(o: Object, text: seq<byte>)
    ensures o.instances == [] && !HasVersion(o) ==> text + ObjectText(o) == text + Path(o.id) + PathEnd() && |ObjectText(o)| == |Path(o.id)| + 2
    ensures o.instances == [] && HasVersion(o) ==> ObjectText(o) == VersionText(o)
    ensures o.instances != [] ==> ObjectText(o) == BeforeInstances(o) + InstancesText(o.id, o.instances)
    ensures o.instances != [] ==> |Template(o.id)| < |InstancesText(o.id, o.instances)|
    ensures |Template(o.id)| == |Path(o.id)| + 1 && |VersionText(o)| > |Template(o.id)|
  {
    if o.instances != [] {
      InstancesLength(o.id, o.instances, 1);
      assert o.instances[..1][..0] == [];
    }
  }

  /** The loop over the instances. */
  method AppendInstances(buffer: array<byte>, index: nat, start: nat, length: nat, o: Object, ghost text: seq<byte>) returns (ok: bool, next: nat)
    requires start + length == index <= buffer.Length && o.instances != []
    modifies buffer
    ensures next <= buffer.Length
    ensures (&& HasTemplate(old(buffer[..]), start, length, o.id) && Filled(old(buffer[..]), index, text + Template(o.id))
             && |text| + |InstancesText(o.id, o.instances)| < buffer.Length)
            ==> ok && Filled(buffer[..], next, text + InstancesText(o.id, o.instances))
  {
    ghost var enough := (&& HasTemplate(buffer[..], start, length, o.id) && Filled(buffer[..], index, text + Template(o.id))
                         && |text| + |InstancesText(o.id, o.instances)| < buffer.Length);
    next := index;
    var i := 0;
    assert InstancesText(o.id, o.instances[..0]) == [] && text + [] == text;
    hide Decimal.Digits, InstancesText, Ascii, Template, Filled, HasTemplate;
    while i < |o.instances|
      invariant 0 <= i <= |o.instances| && start + length <= next <= buffer.Length
      invariant i == 0 ==> next == start + length
      invariant i > 0 ==> next > start + length
      invariant enough ==> HasTemplate(buffer[..], start, length, o.id)
      invariant enough ==> Filled(buffer[..], next, if i == 0 then text + Template(o.id) else text + InstancesText(o.id, o.instances[..i]))
    {
      ghost var done := text + InstancesText(o.id, o.instances[..i]);
      InstanceStep(o.id, o.instances, i, text);
      if enough { StartBound(buffer[..], start, length, next, i == 0, text, done, o.id); }
      ok, next := AppendInstance(buffer, next, start, length, o.id, o.instances[i], done);
      if !ok { return; }
      i := i + 1;
    }
    assert o.instances[..i] == o.instances;
    ok := true;
  }

  lemma {:induction false} StartBound(s: seq<byte>, start: nat, length: nat, next: nat, first: bool, text: seq<byte>, done: seq<byte>, id: uint16)
    requires start + length <= next && (first ==> done == text)
    requires Filled(s, next, if first then text + Template(id) else done)
    ensures start + length <= |done + Template(id)|
  {
  }

  /** What comes before the objects. */
  function PayloadHead(altPath: seq<byte>): seq<byte> {
    Start() + (if altPath == [] then DefaultPath() else altPath) + ResourceType()
  }

  method AppendPayloadHead(altPath: seq<byte>, buffer: array<byte>) returns (index: nat)
    modifies buffer
    ensures index <= buffer.Length
    ensures |PayloadHead(altPath)| <= buffer.Length ==> Filled(buffer[..], index, PayloadHead(altPath))
  {
    var path := if altPath == [] then DefaultPath() else altPath;
    assert Filled(buffer[..], 0, []) && [] + Start() == Start();
    hide Filled, Ascii, Start, ResourceType, DefaultPath;
    index := Append(buffer, 0, Start(), []);
    index := Append(buffer, index, path, Start());
    index := Append(buffer, index, ResourceType(), Start() + path);
  }

  /** The loop over the objects. */
  method AppendObjects(objects: seq<Object>, buffer: array<byte>, first: nat, ghost head: seq<byte>) returns (ok: bool, index: nat)
    requires first <= buffer.Length
    modifies buffer
    ensures index <= buffer.Length
    ensures (Filled(old(buffer[..]), first, head) && |head| + |ObjectsText(objects)| < buffer.Length) ==>
              ok && Filled(buffer[..], index, head + ObjectsText(objects))
  {
    ghost var enough := Filled(buffer[..], first, head) && |head| + |ObjectsText(objects)| < buffer.Length;
    index := first;
    var k := 0;
    assert objects[..0] == [];
    NoObjects(head);
    hide Filled, ObjectText, ObjectsText, Ascii;
    while k < |objects|
      invariant 0 <= k <= |objects| && index <= buffer.Length
      invariant enough ==> Filled(buffer[..], index, head + ObjectsText(objects[..k]))
    {
      ObjectStep(objects, k, head);
      if objects[k].id != SECURITY_OBJECT {
        ok, index := AppendObject(buffer, index, objects[k], head + ObjectsText(objects[..k]));
        if !ok { return; }
      }
      k := k + 1;
    }
    assert objects[..k] == objects;
    ok := true;
  }

  /** `object_getRegisterPayload`: the length of what was written, without the last comma; 0 on failure. */
  method GetPayload(altPath: seq<byte>, objects: seq<Object>, buffer: array<byte>) returns (n: nat)
    requires buffer.Length > 0
    modifies buffer
    ensures n <= buffer.Length
    ensures |PayloadText(altPath, objects)| < buffer.Length ==>
              n == |PayloadText(altPath, objects)| - 1 && buffer[..n] == PayloadText(altPath, objects)[..n] && buffer[n] == 0
  {
    PayloadLength(altPath, objects);
    assert PayloadText(altPath, objects) == PayloadHead(altPath) + ObjectsText(objects);
    hide Filled, ObjectsText, PayloadHead, PayloadText;
    var index := AppendPayloadHead(altPath, buffer);
    var ok;
    ok, index := AppendObjects(objects, buffer, index, PayloadHead(altPath));
    if !ok { return 0; }
    n := Terminate(buffer, index, PayloadHead(altPath) + ObjectsText(objects));
  }

  /** The comma behind the last entry gives way to the final NUL. */
  method Terminate(buffer: array<byte>, index: nat, ghost text: seq<byte>) returns (n: nat)
    requires index <= buffer.Length && buffer.Length > 0
    modifies buffer
    ensures n <= buffer.Length
    ensures Filled(old(buffer[..]), index, text) && text != [] ==> n == |text| - 1 && buffer[..n] == text[..n] && buffer[n] == 0
  {
    ghost var s0 := buffer[..];
    n := if index > 0 then index - 1 else 0;
    if Filled(s0, index, text) && text != [] { FilledEnd(s0, index, text); }
    buffer[n] := 0;
    assert buffer[..n] == s0[..n];
  }

  lemma {:induction false} FilledEnd(s: seq<byte>, index: nat, text: seq<byte>)
    requires Filled(s, index, text) && text != []
    ensures index == |text| && s[..index - 1] == text[..index - 1]
  {
    assert s[..index - 1] == s[..index][..index - 1];
  }

  lemma {:induction false} NoObjects(head: seq<byte>)
    ensures head + ObjectsText([]) == head
  {
  }

  lemma {:induction false} ObjectsShorter(objects: seq<Object>, k: nat)
    requires k <= |objects|
    ensures |ObjectsText(objects[..k])| <= |ObjectsText(objects)|
    decreases |objects| - k
  {
    if k < |objects| {
      ObjectsShorter(objects, k + 1);
      assert objects[..k + 1][..k] == objects[..k];
      hide ObjectText;
    } else {
      assert objects[..k] == objects;
    }
  }

  lemma {:induction false} ObjectStep(objects: seq<Object>, k: nat, head: seq<byte>)
    requires k < |objects|
    ensures var (done, o) := (ObjectsText(objects[..k]), objects[k]);
            && head + ObjectsText(objects[..k + 1]) == (if o.id == SECURITY_OBJECT then head + done else head + done + ObjectText(o))
            && (o.id != SECURITY_OBJECT ==> |done| + |ObjectText(o)| <= |ObjectsText(objects)|)
  {
    assert objects[..k + 1][..k] == objects[..k];
    ObjectsShorter(objects, k + 1);
    hide ObjectText;
    ConcatAssociative(head, ObjectsText(objects[..k]), if objects[k].id == SECURITY_OBJECT then [] else ObjectText(objects[k]));
  }

  /** The two passes agree: a buffer of the computed size is filled but for two bytes, unless there is an OSCORE
      object. */
  method RegisterPayload(altPath: seq<byte>, objects: seq<Object>) returns (n: nat, buffer: array<byte>)
    ensures WithoutOscore(objects) ==>
              n + 2 == buffer.Length && n == |PayloadText(altPath, objects)| - 1 && buffer[..n] == PayloadText(altPath, objects)[..n]
  {
    var length := GetPayloadBufferLength(altPath, objects);
    buffer := new byte[length];
    n := GetPayload(altPath, objects, buffer);
  }

  // ----- the query ----------------------------------------------------------------------------

  /** What the query says of the client and the server; a missing number is empty, no lifetime is 0. */
  datatype Registration = Registration(name: seq<byte>, msisdn: Option<seq<byte>>, u: bool, t: bool, s: bool, n: bool, q: bool, lifetime: uint64)

  predicate HasBinding(r: Registration) {
    r.u || r.t || r.s || r.n
  }

  function Flag(b: bool, c: char): seq<byte> {
    if b then [(c as int) % 256] else []
  }

  function BindingText(r: Registration): seq<byte> {
    if HasBinding(r) then Ascii("&b=") + Flag(r.u, 'U') + Flag(r.t, 'T') + Flag(r.s, 'S') + Flag(r.n, 'N') else []
  }

  /** "?lwm2m=1.1&ep=..." and what follows. */
  function QueryText(r: Registration): seq<byte>
  {
    Ascii("?lwm2m=1.1&ep=") + r.name
    + (if r.msisdn.Some? then Ascii("&sms=") + r.msisdn.value else [])
    + BindingText(r)
    + (if r.q then Ascii("&Q") else [])
    + (if r.lifetime != 0 then Ascii("&lt=") + Decimal.Digits(r.lifetime) else [])
  }

  lemma {:induction false} QueryLengths(r: Registration)
    ensures |QueryText(r)| == 14 + |r.name| + (if r.msisdn.Some? then 5 + |r.msisdn.value| else 0) + |BindingText(r)|
                              + (if r.q then 2 else 0) + (if r.lifetime != 0 then 4 + |Decimal.Digits(r.lifetime)| else 0)
  {
    hide Ascii, Decimal.Digits, BindingText;
  }

  lemma {:induction false} BindingSize(r: Registration)
    ensures |BindingText(r)| == if HasBinding(r) then 3 + |Flag(r.u, 'U')| + |Flag(r.t, 'T')| + |Flag(r.s, 'S')| + |Flag(r.n, 'N')| else 0
  {
    hide Ascii, Flag;
  }

  /** The part of the size pass for the binding. */
  method BindingLength(r: Registration) returns (n: nat)
    ensures n == |BindingText(r)|
  {
    BindingSize(r);
    hide BindingText, Ascii;
    n := 0;
    if HasBinding(r) {
      n := n + 1 + 2;
      if r.u { n := n + 1; }
      assert n == 3 + |Flag(r.u, 'U')|;
      if r.t { n := n + 1; }
      if r.s { n := n + 1; }
      assert n == 3 + |Flag(r.u, 'U')| + |Flag(r.t, 'T')| + |Flag(r.s, 'S')|;
      if r.n { n := n + 1; }
    }
  }

  /** `prv_getRegistrationQueryLength` */
  method GetQueryLength(r: Registration) returns (index: nat)
    ensures index == |QueryText(r)| + 1
  {
    QueryLengths(r);
    hide Ascii, Decimal.Digits, QueryText, BindingText, HasBinding;
    index := |Ascii("?lwm2m=1.1&ep=")| + |r.name|;
    if r.msisdn.Some? {
      index := index + |Ascii("&sms=")| + |r.msisdn.value|;
    }
    var binding := BindingLength(r);
    index := index + binding;
    if r.q {
      index := index + 1 + 1;
    }
    if r.lifetime != 0 {
      index := index + |Ascii("&lt=")| + |Decimal.Digits(r.lifetime)|;
    }
    index := index + 1;
  }

  /** A letter of the binding. */
  method AppendFlag(buffer: array<byte>, index: nat, b: bool, c: char, ghost text: seq<byte>) returns (ok: bool, next: nat)
    requires index <= buffer.Length
    modifies buffer
    ensures next <= buffer.Length
    ensures Filled(old(buffer[..]), index, text) && |text| + |Flag(b, c)| <= buffer.Length ==> ok && Filled(buffer[..], next, text + Flag(b, c))
  {
    if !b {
      assert text + [] == text;
      return true, index;
    }
    ok := AppendByte(buffer, index, (c as int) % 256, text);
    next := if ok then index + 1 else index;
  }

  method AppendBinding(r: Registration, buffer: array<byte>, index: nat, ghost text: seq<byte>) returns (ok: bool, next: nat)
    requires index <= buffer.Length
    modifies buffer
    ensures next <= buffer.Length
    ensures Filled(old(buffer[..]), index, text) && |text| + |BindingText(r)| <= buffer.Length ==> ok && Filled(buffer[..], next, text + BindingText(r))
  {
    if !HasBinding(r) {
      assert text + [] == text;
      return true, index;
    }
    BindingParts(r, text);
    hide Filled, Ascii, Flag, BindingText;
    ghost var done := text + Ascii("&b=");
    next := Append(buffer, index, Ascii("&b="), text);
    ok, next := AppendFlag(buffer, next, r.u, 'U', done);
    if !ok { return; }
    done := done + Flag(r.u, 'U');
    ok, next := AppendFlag(buffer, next, r.t, 'T', done);
    if !ok { return; }
    done := done + Flag(r.t, 'T');
    ok, next := AppendFlag(buffer, next, r.s, 'S', done);
    if !ok { return; }
    done := done + Flag(r.s, 'S');
    ok, next := AppendFlag(buffer, next, r.n, 'N', done);
  }

  lemma {:induction false} BindingParts(r: Registration, text: seq<byte>)
    requires HasBinding(r)
    ensures text + BindingText(r) == text + Ascii("&b=") + Flag(r.u, 'U') + Flag(r.t, 'T') + Flag(r.s, 'S') + Flag(r.n, 'N')
    ensures |BindingText(r)| == 3 + |Flag(r.u, 'U')| + |Flag(r.t, 'T')| + |Flag(r.s, 'S')| + |Flag(r.n, 'N')|
  {
    hide Ascii, Flag;
  }

  /** An optional part of the query. */
  method AppendIf(buffer: array<byte>, index: nat, b: bool, s: seq<byte>, ghost text: seq<byte>) returns (next: nat)
    requires index <= buffer.Length
    modifies buffer
    ensures next <= buffer.Length
    ensures var part := if b then s else [];
            Filled(old(buffer[..]), index, text) && |text| + |part| <= buffer.Length ==> Filled(buffer[..], next, text + part)
  {
    assert text + [] == text;
    next := index;
    if b { next := Append(buffer, index, s, text); }
  }

  function SmsPart(r: Registration): seq<byte> {
    if r.msisdn.Some? then Ascii("&sms=") + r.msisdn.value else []
  }

  function QueuePart(r: Registration): seq<byte> {
    if r.q then Ascii("&Q") else []
  }

  function QueryHead(r: Registration): seq<byte> {
    Ascii("?lwm2m=1.1&ep=") + r.name + SmsPart(r)
  }

  function QueryTail(r: Registration): seq<byte> {
    if r.lifetime != 0 then Ascii("&lt=") + Decimal.Digits(r.lifetime) else []
  }

  lemma {:induction false} QueryParts(r: Registration)
    ensures QueryText(r) == QueryHead(r) + BindingText(r) + QueuePart(r) + QueryTail(r)
    ensures |QueryText(r)| == |QueryHead(r)| + |BindingText(r)| + |QueuePart(r)| + |QueryTail(r)|
  {
    hide Ascii, BindingText, Decimal.Digits;
  }

  method AppendSms(r: Registration, buffer: array<byte>, index: nat, ghost text: seq<byte>) returns (next: nat)
    requires index <= buffer.Length
    modifies buffer
    ensures next <= buffer.Length
    ensures Filled(old(buffer[..]), index, text) && |text| + |SmsPart(r)| <= buffer.Length ==> Filled(buffer[..], next, text + SmsPart(r))
  {
    if r.msisdn.None? {
      assert text + [] == text;
      return index;
    }
    hide Filled, Ascii;
    next := Append(buffer, index, Ascii("&sms="), text);
    next := Append(buffer, next, r.msisdn.value, text + Ascii("&sms="));
    ConcatAssociative(text, Ascii("&sms="), r.msisdn.value);
  }

  method AppendQueryHead(r: Registration, buffer: array<byte>) returns (index: nat)
    modifies buffer
    ensures index <= buffer.Length
    ensures |QueryHead(r)| <= buffer.Length ==> Filled(buffer[..], index, QueryHead(r))
  {
    assert Filled(buffer[..], 0, []) && [] + Ascii("?lwm2m=1.1&ep=") == Ascii("?lwm2m=1.1&ep=");
    hide Filled, Ascii, SmsPart;
    index := Append(buffer, 0, Ascii("?lwm2m=1.1&ep="), []);
    index := Append(buffer, index, r.name, Ascii("?lwm2m=1.1&ep="));
    index := AppendSms(r, buffer, index, Ascii("?lwm2m=1.1&ep=") + r.name);
  }

  /** The lifetime; false when its number does not fit. */
  method AppendQueryTail(r: Registration, buffer: array<byte>, index: nat, ghost text: seq<byte>) returns (ok: bool, next: nat)
    requires index <= buffer.Length
    modifies buffer
    ensures next <= buffer.Length
    ensures Filled(old(buffer[..]), index, text) && |text| + |QueryTail(r)| <= buffer.Length ==> ok && Filled(buffer[..], next, text + QueryTail(r))
  {
    if r.lifetime == 0 {
      assert text + [] == text;
      return true, index;
    }
    hide Filled, Ascii, Decimal.Digits;
    var before := Append(buffer, index, Ascii("&lt="), text);
    next := AppendNumber(buffer, before, r.lifetime, text + Ascii("&lt="));
    ConcatAssociative(text, Ascii("&lt="), Decimal.Digits(r.lifetime));
    ok := before < next;
  }

  /** The query without its final NUL. */
  method AppendQuery(r: Registration, buffer: array<byte>) returns (ok: bool, index: nat)
    modifies buffer
    ensures index <= buffer.Length
    ensures |QueryText(r)| <= buffer.Length ==> ok && Filled(buffer[..], index, QueryText(r))
  {
    QueryParts(r);
    hide Filled, Ascii, QueryText, QueryHead, QueryTail, BindingText;
    index := AppendQueryHead(r, buffer);
    ok, index := AppendBinding(r, buffer, index, QueryHead(r));
    if !ok { return; }
    index := AppendIf(buffer, index, r.q, Ascii("&Q"), QueryHead(r) + BindingText(r));
    ok, index := AppendQueryTail(r, buffer, index, QueryHead(r) + BindingText(r) + QueuePart(r));
  }

  /** `prv_getRegistrationQuery`: the length with the final NUL, 0 when it does not fit. */
  method GetQuery(r: Registration, buffer: array<byte>) returns (n: nat)
    modifies buffer
    ensures n <= buffer.Length
    ensures |QueryText(r)| < buffer.Length ==> n == |QueryText(r)| + 1 && buffer[..n] == QueryText(r) + [0]
  {
    hide Filled, QueryText;
    ghost var enough := |QueryText(r)| < buffer.Length;
    var ok, index := AppendQuery(r, buffer);
    if !ok { return 0; }
    if enough { FilledIndex(buffer[..], index, QueryText(r)); }
    ok := AppendByte(buffer, index, 0, QueryText(r));
    if enough { FilledWhole(buffer[..], index + 1, QueryText(r) + [0]); }
    n := if ok then index + 1 else 0;
  }

  lemma {:induction false} FilledWhole(s: seq<byte>, index: nat, text: seq<byte>)
    requires Filled(s, index, text)
    ensures index <= |s| && s[..index] == text
  {
  }

  /** The two passes agree: the writer fills a buffer of the computed length. */
  method RegisterQuery(r: Registration) returns (n: nat, buffer: array<byte>)
    ensures n == buffer.Length && buffer[..] == QueryText(r) + [0]
  {
    hide QueryText;
    var length := GetQueryLength(r);
    buffer := new byte[length];
    n := GetQuery(r, buffer);
    assert buffer[..n] == buffer[..];
  }
}
