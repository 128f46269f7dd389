/** LwM2M paths and their text (core/uri.c:225-357). A URI is the sequence of the identifiers that are
    set: object, instance, resource, resource instance. */
module Uri {
  import opened Bytes
  import opened Decimal

  const MAX_ID: nat := 0xFFFF
  const MAX_STRING_LEN: nat := 24
  const SLASH: byte := 47

  type Path = seq<uint16>

  predicate IsPath(p: Path) {
    |p| <= 4 && forall i :: 0 <= i < |p| ==> p[i] < MAX_ID
  }

  /** "/3/0/1" */
  function Text(p: Path): seq<byte>
  {
    if p == [] then [] else Text(p[..|p| - 1]) + [SLASH] + Digits(p[|p| - 1])
  }

  lemma {:induction false} TextConcat(p: Path, q: Path)
    ensures Text(p + q) == Text(p) + Text(q)
  {
    if q == [] {
      assert p + q == p;
    } else {
      var n := |q| - 1;
      assert (p + q)[..|p + q| - 1] == p + q[..n];
      TextConcat(p, q[..n]);
    }
  }

  lemma {:induction false} TextCons(id: uint16, p: Path)
    ensures Text([id] + p) == [SLASH] + Digits(id) + Text(p)
  {
    TextConcat([id], p);
    assert [id][..0] == [];
    assert Text([id]) == [] + [SLASH] + Digits(id);
  }

  lemma {:induction false} TextLength(p: Path)
    ensures 2 * |p| <= |Text(p)| <= 6 * |p|
  {
    if p != [] {
      TextLength(p[..|p| - 1]);
      DigitsLength16(p[|p| - 1]);
    }
  }

  // ----- reading ------------------------------------------------------------------------------

  datatype Number = Number(value: nat, head: nat)

  /** The loop of `prv_parseNumber`: the value read so far is `n`. */
  function NumberFrom(s: seq<byte>, head: nat, n: nat): (r: Option<Number>)
    requires head <= |s|
    ensures r.Some? ==> head <= r.value.head <= |s|
    decreases |s| - head
  {
    if head == |s| || s[head] == SLASH then Some(Number(n, head))
    else if IsDigit(s[head]) then NumberFrom(s, head + 1, n * 10 + (s[head] - ZERO))
    else None
  }

  /** `prv_parseNumber`, where it does not overflow. */
  function ParseNumber(s: seq<byte>, head: nat): (r: Option<Number>)
    requires head < |s|
    ensures r.Some? ==> head < r.value.head <= |s|
  {
    if s[head] == SLASH then None else NumberFrom(s, head, 0)
  }

  /** Does the loop of `prv_parseNumber` overflow from here on? It accumulates in an `int`. */
  predicate OverflowsFrom(s: seq<byte>, head: nat, n: nat)
    decreases |s| - head
  {
    head < |s| && s[head] != SLASH && IsDigit(s[head])
    && (n * 10 + (s[head] - ZERO) > INT_MAX || OverflowsFrom(s, head + 1, n * 10 + (s[head] - ZERO)))
  }

  predicate NumberOverflows(s: seq<byte>, head: nat) {
    OverflowsFrom(s, head, 0)
  }

  /** The value of the digits from `head` on, in unbounded arithmetic. */
  function DigitsValue(s: seq<byte>, head: nat, n: nat): (v: nat)
    ensures v >= n
    decreases |s| - head
  {
    if head < |s| && IsDigit(s[head]) then DigitsValue(s, head + 1, n * 10 + (s[head] - ZERO)) else n
  }

  /** A number overflows exactly when its digits stand for more than an `int` holds; what is read otherwise is their
      value. */
  lemma {:induction false} OverflowIsLarge(s: seq<byte>, head: nat, n: nat)
    requires head <= |s| && n <= INT_MAX
    ensures OverflowsFrom(s, head, n) <==> DigitsValue(s, head, n) > INT_MAX
    ensures NumberFrom(s, head, n).Some? ==> NumberFrom(s, head, n).value.value == DigitsValue(s, head, n)
    decreases |s| - head
  {
    if head < |s| && s[head] != SLASH && IsDigit(s[head]) {
      var m := n * 10 + (s[head] - ZERO);
      if m <= INT_MAX {
        OverflowIsLarge(s, head + 1, m);
      } else {
        LargeStays(s, head + 1, m);
      }
    }
  }

  lemma {:induction false} LargeStays(s: seq<byte>, head: nat, n: nat)
    requires head <= |s|
    ensures NumberFrom(s, head, n).Some? ==> NumberFrom(s, head, n).value.value == DigitsValue(s, head, n)
    decreases |s| - head
  {
    if head < |s| && s[head] != SLASH && IsDigit(s[head]) {
      LargeStays(s, head + 1, n * 10 + (s[head] - ZERO));
    }
  }

  predicate IsSpace(c: byte) {
    c == 32 || 9 <= c <= 13
  }

  function SkipSpaces(s: seq<byte>, head: nat): (k: nat)
    requires head <= |s|
    ensures head <= k <= |s|
    decreases |s| - head
  {
    if head < |s| && IsSpace(s[head]) then SkipSpaces(s, head + 1) else head
  }

  /** The identifiers from `head` on, after `ids` were read. A slash may follow each of the first three. */
  function IdsFrom(s: seq<byte>, head: nat, ids: Path): Option<Path>
    requires head <= |s| && |ids| <= 4
    decreases |s| - head
  {
    if head == |s| then Some(ids)
    else if |ids| == 4 then None
    else
      match ParseNumber(s, head)
      case None => None
      case Some(n) =>
        if n.value >= MAX_ID then None
        else IdsFrom(s, if |ids| < 3 && n.head < |s| && s[n.head] == SLASH then n.head + 1 else n.head, ids + [n.value])
  }

  lemma {:induction false} IdsStep(s: seq<byte>, head: nat, ids: Path, n: Number, next: nat)
    requires head < |s| && |ids| < 4 && ParseNumber(s, head) == Some(n) && n.value < MAX_ID
    requires next == if |ids| < 3 && n.head < |s| && s[n.head] == SLASH then n.head + 1 else n.head
    ensures IdsFrom(s, head, ids) == IdsFrom(s, next, ids + [n.value])
  {
  }

  /** `lwm2m_stringToUri` */
  function FromText(s: seq<byte>): Option<Path>
  {
    var head := SkipSpaces(s, 0);
    if head == |s| || s[head] != SLASH then None else IdsFrom(s, head + 1, [])
  }

  /** Does a number overflow on the way through the text? */
  predicate IdsOverflow(s: seq<byte>, head: nat, ids: Path)
    requires head <= |s| && |ids| <= 4
    decreases |s| - head
  {
    head < |s| && |ids| < 4 &&
    (NumberOverflows(s, head) ||
     match ParseNumber(s, head)
     case None => false
     case Some(n) =>
       n.value < MAX_ID
       && IdsOverflow(s, if |ids| < 3 && n.head < |s| && s[n.head] == SLASH then n.head + 1 else n.head, ids + [n.value]))
  }

  predicate TextOverflows(s: seq<byte>) {
    var head := SkipSpaces(s, 0);
    head < |s| && s[head] == SLASH && IdsOverflow(s, head + 1, [])
  }

  /** No text that stands for a path overflows. */
  lemma {:induction false} PathsDoNotOverflow(s: seq<byte>)
    ensures FromText(s).Some? ==> !TextOverflows(s)
  {
    if FromText(s).Some? {
      hide IdsFrom, IdsOverflow;
      IdsDoNotOverflow(s, SkipSpaces(s, 0) + 1, []);
    }
  }

  lemma {:induction false} IdsDoNotOverflow(s: seq<byte>, head: nat, ids: Path)
    requires head <= |s| && |ids| <= 4 && IdsFrom(s, head, ids).Some?
    ensures !IdsOverflow(s, head, ids)
    decreases |s| - head
  {
    if head < |s| {
      var n := ParseNumber(s, head).value;
      OverflowIsLarge(s, head, 0);
      hide NumberFrom, OverflowsFrom, DigitsValue;
      IdsDoNotOverflow(s, if |ids| < 3 && n.head < |s| && s[n.head] == SLASH then n.head + 1 else n.head, ids + [n.value]);
    }
  }

  lemma {:induction false} NumberOfNumeral(before: seq<byte>, s: seq<byte>, after: seq<byte>, n: nat)
    requires IsNumeral(s) && (after == [] || after[0] == SLASH)
    ensures NumberFrom(before + s + after, |before|, n) == Some(Number(n * PowerOfTen(|s|) + Numeral(s), |before + s|))
    decreases |s|
  {
    var t := before + s + after;
    if s == [] {
      assert t == before + after;
    } else {
      var (c, more) := (s[0], s[1..]);
      assert IsDigit(c) && t[|before|] == c && s == [c] + more;
      NumeralCons(c, more);
      assert before + [c] + more + after == t && before + [c] + more == before + s;
      hide Numeral;
      NumberOfNumeral(before + [c], more, after, n * 10 + (c - ZERO));
      PowerStep(n, c - ZERO, |more|);
    }
  }

  function PowerOfTen(k: nat): (p: nat)
    ensures p > 0
  {
    if k == 0 then 1 else 10 * PowerOfTen(k - 1)
  }

  lemma {:induction false} PowerStep(n: nat, d: nat, k: nat)
    ensures (n * 10 + d) * PowerOfTen(k) == n * PowerOfTen(k + 1) + d * PowerOfTen(k)
  {
  }

  lemma {:induction false} NumeralCons(c: byte, s: seq<byte>)
    requires IsDigit(c) && IsNumeral(s)
    ensures IsNumeral([c] + s) && Numeral([c] + s) == (c - ZERO) * PowerOfTen(|s|) + Numeral(s)
  {
    if s == [] {
      assert ([c] + s)[..0] == [];
    } else {
      var front := s[..|s| - 1];
      NumeralCons(c, front);
      assert ([c] + s)[..|s|] == [c] + front;
      assert Numeral([c] + s) == Numeral([c] + front) * 10 + (s[|s| - 1] - ZERO);
      assert Numeral(s) == Numeral(front) * 10 + (s[|s| - 1] - ZERO);
      hide Numeral;
      NumeralShift(c - ZERO, PowerOfTen(|front|), Numeral(front), s[|s| - 1] - ZERO);
    }
  }

  lemma {:induction false} NumeralShift(d: nat, power: nat, n: nat, last: nat)
    ensures (d * power + n) * 10 + last == d * (10 * power) + (n * 10 + last)
  {
  }

  /** The numeral of an identifier is read back whatever follows the next slash. */
  lemma {:induction false} ParseDigits(id: uint16, before: seq<byte>, after: seq<byte>)
    requires after == [] || after[0] == SLASH
    ensures ParseNumber(before + Digits(id) + after, |before|) == Some(Number(id, |before + Digits(id)|))
  {
    var s := before + Digits(id) + after;
    assert IsDigit(s[|before|]) by { assert s[|before|] == Digits(id)[0]; }
    NumeralOfDigits(id);
    NumberOfNumeral(before, Digits(id), after, 0);
  }

  lemma {:induction false} TextStart(p: Path)
    ensures p == [] ==> Text(p) == []
    ensures p != [] ==> Text(p) != [] && Text(p)[0] == SLASH
  {
    if p != [] {
      assert p == [p[0]] + p[1..];
      TextCons(p[0], p[1..]);
    }
  }

  lemma {:induction false} TextFront(before: seq<byte>, id: uint16, more: Path)
    ensures before + Text([id] + more) == (before + [SLASH] + Digits(id)) + Text(more)
  {
    TextCons(id, more);
    hide Text, Digits;
  }

  /** Reading an identifier leads to the next one, or to the end. */
  lemma {:induction false} LevelStep(s: seq<byte>, before: seq<byte>, ids: Path, id: uint16, tail: seq<byte>)
    requires s == (before + [SLASH] + Digits(id)) + tail && (tail == [] || tail[0] == SLASH)
    requires |ids| < 4 && (tail != [] ==> |ids| < 3) && id < MAX_ID
    ensures IdsFrom(s, |before| + 1, ids) == IdsFrom(s, |before| + 1 + |Digits(id)| + (if tail == [] then 0 else 1), ids + [id])
  {
    hide IdsFrom, ParseNumber, Digits;
    var here := before + [SLASH];
    var next := |here + Digits(id)|;
    ParseDigits(id, here, tail);
    IdsStep(s, |before| + 1, ids, Number(id, next), if tail == [] then next else next + 1);
  }

  lemma {:induction false} IdsRoundTrip(before: seq<byte>, ids: Path, rest: Path)
    requires IsPath(ids + rest) && rest != []
    ensures IdsFrom(before + Text(rest), |before| + 1, ids) == Some(ids + rest)
    decreases |rest|
  {
    hide Text, Digits;
    var (id, more) := (rest[0], rest[1..]);
    assert rest == [id] + more && (ids + rest)[|ids|] == id;
    assert (ids + [id]) + more == ids + rest;
    TextFront(before, id, more);
    TextStart(more);
    var s := before + Text(rest);
    LevelStep(s, before, ids, id, Text(more));
    if more == [] {
      EndOfText(s, ids + [id]);
      assert rest == [id] && |s| == |before| + 1 + |Digits(id)|;
    } else {
      hide IdsFrom;
      IdsRoundTrip(before + [SLASH] + Digits(id), ids + [id], more);
    }
  }

  lemma {:induction false} EndOfText(s: seq<byte>, ids: Path)
    requires |ids| <= 4
    ensures IdsFrom(s, |s|, ids) == Some(ids)
  {
  }

  lemma {:induction false} FromSlash(s: seq<byte>)
    requires s != [] && s[0] == SLASH
    ensures FromText(s) == IdsFrom(s, 1, [])
  {
    hide IdsFrom;
    assert SkipSpaces(s, 0) == 0;
  }

  /** Every path is read back from its text. */
  lemma {:induction false} TextRoundTrip(p: Path)
    requires IsPath(p) && p != []
    ensures FromText(Text(p)) == Some(p)
  {
    hide Text, FromText, IdsFrom;
    TextStart(p);
    FromSlash(Text(p));
    assert [] + Text(p) == Text(p) && [] + p == p;
    IdsRoundTrip([], [], p);
  }

  lemma {:induction false} IdsWithSlash(before: seq<byte>, ids: Path, rest: Path)
    requires IsPath(ids + rest) && rest != [] && |ids + rest| <= 3
    ensures IdsFrom(before + Text(rest) + [SLASH], |before| + 1, ids) == Some(ids + rest)
    decreases |rest|
  {
    hide Text, Digits;
    var (id, more) := (rest[0], rest[1..]);
    var here := before + [SLASH] + Digits(id);
    assert rest == [id] + more && (ids + rest)[|ids|] == id;
    assert (ids + [id]) + more == ids + rest;
    TextFront(before, id, more);
    TextStart(more);
    var s := before + Text(rest) + [SLASH];
    var tail := Text(more) + [SLASH];
    assert s == here + tail;
    LevelStep(s, before, ids, id, tail);
    if more == [] {
      EndOfText(s, ids + [id]);
      assert rest == [id] && |s| == |before| + 1 + |Digits(id)| + 1;
    } else {
      hide IdsFrom;
      IdsWithSlash(here, ids + [id], more);
      assert here + Text(more) + [SLASH] == s;
    }
  }

  /** A slash behind the text of a path of up to three identifiers changes nothing. */
  lemma {:induction false} TextWithSlash(p: Path)
    requires IsPath(p) && 1 <= |p| <= 3
    ensures FromText(Text(p) + [SLASH]) == Some(p)
  {
    hide Text, FromText, IdsFrom;
    TextStart(p);
    FromSlash(Text(p) + [SLASH]);
    assert [] + Text(p) == Text(p) && [] + p == p;
    IdsWithSlash([], [], p);
  }

  lemma {:induction false} RootRoundTrip()
    ensures FromText([SLASH]) == Some([])
  {
  }

  // ----- the loops ----------------------------------------------------------------------------

  /** `prv_parseNumber`, the loop. Nothing is promised about the number once the `int` has overflowed. */
  method ReadNumber(s: seq<byte>, start: nat) returns (r: Option<Number>, overflowed: bool)
    requires start < |s|
    ensures overflowed <==> NumberOverflows(s, start)
    ensures !overflowed ==> r == ParseNumber(s, start)
  {
    var result := 0;
    var head := start;
    if s[head] == SLASH { return None, false; }
    while head < |s| && s[head] != SLASH
      invariant start <= head <= |s| && 0 <= result <= INT_MAX
      invariant NumberFrom(s, head, result) == NumberFrom(s, start, 0)
      invariant OverflowsFrom(s, head, result) == OverflowsFrom(s, start, 0)
    {
      if !IsDigit(s[head]) { return None, false; }
      if result * 10 + (s[head] - ZERO) > INT_MAX { return None, true; }
      result := result * 10 + (s[head] - ZERO);
      head := head + 1;
    }
    return Some(Number(result, head)), false;
  }

  /** One level of `lwm2m_stringToUri`: an identifier and, but for the last, the slash after it. */
  method ReadLevel(s: seq<byte>, start: nat, ids: Path) returns (ok: bool, overflowed: bool, head: nat, more: Path)
    requires start < |s| && |ids| < 4
    ensures head <= |s| && |more| <= 4
    ensures overflowed ==> !ok && IdsOverflow(s, start, ids)
    ensures !overflowed ==> IdsOverflow(s, start, ids) == (ok && IdsOverflow(s, head, more))
    ensures !overflowed ==> IdsFrom(s, start, ids) == if ok then IdsFrom(s, head, more) else None
    ensures ok ==> |more| == |ids| + 1
  {
    var n, overflow := ReadNumber(s, start);
    hide NumberOverflows, ParseNumber;
    if overflow { return false, true, start, ids; }
    if n.None? || n.value.value >= MAX_ID { return false, false, start, ids; }
    head := n.value.head;
    if |ids| < 3 && head < |s| && s[head] == SLASH { head := head + 1; }
    IdsStep(s, start, ids, n.value, head);
    return true, false, head, ids + [n.value.value];
  }

  /** `lwm2m_stringToUri`; nothing is promised about the path when a number overflows. */
  method StringToUri(buffer: seq<byte>) returns (r: Option<Path>, overflowed: bool)
    ensures overflowed <==> TextOverflows(buffer)
    ensures !overflowed ==> r == FromText(buffer)
  {
    hide ParseNumber, NumberOverflows, SkipSpaces;
    var head := SkipWhiteSpace(buffer);
    if head == |buffer| || buffer[head] != SLASH { return None, false; }
    head := head + 1;
    if head == |buffer| { return Some([]), false; }
    var ok, ids;
    ok, overflowed, head, ids := ReadLevel(buffer, head, []);
    if !ok { return None, overflowed; }
    if head == |buffer| { return Some(ids), false; }
    ok, overflowed, head, ids := ReadLevel(buffer, head, ids);
    if !ok { return None, overflowed; }
    if head == |buffer| { return Some(ids), false; }
    ok, overflowed, head, ids := ReadLevel(buffer, head, ids);
    if !ok { return None, overflowed; }
    if head == |buffer| { return Some(ids), false; }
    ok, overflowed, head, ids := ReadLevel(buffer, head, ids);
    if !ok { return None, overflowed; }
    return if head == |buffer| then Some(ids) else None, false;
  }

  method SkipWhiteSpace(buffer: seq<byte>) returns (head: nat)
    ensures head == SkipSpaces(buffer, 0)
  {
    head := 0;
    while head < |buffer| && IsSpace(buffer[head])
      invariant head <= |buffer| && SkipSpaces(buffer, head) == SkipSpaces(buffer, 0)
    {
      head := head + 1;
    }
  }

  /** What `lwm2m_uriToString` prints: nothing for a missing URI, a slash for an empty one. */
  function Printed(uri: Option<Path>): seq<byte>
  {
    if uri.None? then [] else if uri.value == [] then [SLASH] else Text(uri.value)
  }

  /** A slash and an identifier. */
  method PrintSegment(buffer: array<byte>, at: nat, id: uint16) returns (n: nat)
    requires 1 <= buffer.Length && at <= buffer.Length
    modifies buffer
    ensures n == 0 <==> at + 1 + |Digits(id)| > buffer.Length
    ensures n > 0 ==> n == 1 + |Digits(id)| && Wrote(old(buffer[..]), buffer[..], at, [SLASH] + Digits(id))
  {
    if at >= buffer.Length - 1 { return 0; }
    ghost var s0 := buffer[..];
    buffer[at] := SLASH;
    ghost var s1 := buffer[..];
    assert Wrote(s0, s1, at, [SLASH]);
    n := PrintUnsigned(id, buffer, at + 1, buffer.Length - at - 1);
    if n > 0 {
      WroteMore(s0, s1, buffer[..], at, [SLASH], Digits(id));
      n := n + 1;
    }
  }

  /** One level of the path, behind the levels above it. */
  method PrintLevel(buffer: array<byte>, p: Path, depth: nat, at: nat) returns (n: int)
    requires depth < |p| && 1 <= buffer.Length && at <= buffer.Length
    requires at == |Text(p[..depth])| && buffer[..at] == Text(p[..depth])
    modifies buffer
    ensures n == -1 || (n == |Text(p[..depth + 1])| && n <= buffer.Length && buffer[..n] == Text(p[..depth + 1]))
    ensures n == -1 ==> |Text(p)| > buffer.Length
    ensures depth + 1 == |p| ==> p[..depth + 1] == p
  {
    hide Text, Digits;
    PrefixText(p, depth);
    n := PrintSegment(buffer, at, p[depth]);
    if n == 0 { return -1; }
    assert buffer[..at + n] == old(buffer[..at]) + ([SLASH] + Digits(p[depth]));
    n := at + n;
  }

  lemma {:induction false} PrefixText(p: Path, depth: nat)
    requires depth < |p|
    ensures Text(p[..depth + 1]) == Text(p[..depth]) + ([SLASH] + Digits(p[depth]))
    ensures |Text(p[..depth + 1])| <= |Text(p)|
    ensures depth + 1 == |p| ==> p[..depth + 1] == p
  {
    assert p[..depth + 1][..depth] == p[..depth];
    assert p[..depth + 1] + p[depth + 1..] == p;
    TextConcat(p[..depth + 1], p[depth + 1..]);
    ConcatAssociative(Text(p[..depth]), [SLASH], Digits(p[depth]));
    hide Digits;
  }

  /** `lwm2m_uriToString`: -1 when the text does not fit. */
  method UriToString(uri: Option<Path>, buffer: array<byte>) returns (n: int)
    requires 1 <= buffer.Length && (uri.Some? ==> |uri.value| <= 4)
    modifies buffer
    ensures n == -1 || (n == |Printed(uri)| && n <= buffer.Length && buffer[..n] == Printed(uri))
    ensures n == -1 <==> |Printed(uri)| > buffer.Length || (uri == Some([]) && buffer.Length == 1)
  {
    if uri.None? { return 0; }
    var p := uri.value;
    if p == [] {
      if 0 >= buffer.Length - 1 { return -1; }
      buffer[0] := SLASH;
      return 1;
    }
    n := PrintLevel(buffer, p, 0, 0);
    if n == -1 || |p| == 1 { return; }
    n := PrintLevel(buffer, p, 1, n);
    if n == -1 || |p| == 2 { return; }
    n := PrintLevel(buffer, p, 2, n);
    if n == -1 || |p| == 3 { return; }
    n := PrintLevel(buffer, p, 3, n);
  }

  /** With the room the library uses, every URI can be printed. */
  lemma {:induction false} UriFits(p: Path)
    requires |p| <= 4
    ensures |Printed(Some(p))| <= MAX_STRING_LEN
  {
    TextLength(p);
  }
}
