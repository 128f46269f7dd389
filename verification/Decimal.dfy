/** Decimal text (core/utils.c:60-265). */
module Decimal {
  import opened Bytes

  const ZERO: byte := 48   // '0'
  const NINE: byte := 57   // '9'
  const MINUS: byte := 45  // '-'
  const COLON: byte := 58  // ':'

  predicate IsDigit(c: byte) {
    ZERO <= c <= NINE
  }

  predicate IsNumeral(s: seq<byte>) {
    forall k :: 0 <= k < |s| ==> IsDigit(s[k])
  }

  /** The decimal numeral of `n`, without leading zeros. */
  function Digits(n: nat): (s: seq<byte>)
    ensures |s| > 0
    ensures IsNumeral(s)
  {
    if n < 10 then [ZERO + n] else Digits(n / 10) + [ZERO + n % 10]
  }

  /** The value of a numeral, in unbounded arithmetic. */
  function Numeral(s: seq<byte>): nat
    requires IsNumeral(s)
  {
    if s == [] then 0
    else
      assert IsDigit(s[|s| - 1]);
      Numeral(s[..|s| - 1]) * 10 + (s[|s| - 1] - ZERO)
  }

  lemma {:induction false} NumeralOfDigits(n: nat)
    ensures Numeral(Digits(n)) == n
  {
    var s := Digits(n);
    if n >= 10 {
      NumeralOfDigits(n / 10);
      assert s[..|s| - 1] == Digits(n / 10);
    }
  }

  /** How many digits an identifier of at most 16 bits takes. */
  lemma DigitsLength16(n: uint16)
    ensures |Digits(n)| <= 5
    ensures n < 10000 ==> |Digits(n)| <= 4
  {
    var m := n / 10;
    if n >= 10 {
      assert Digits(n) == Digits(m) + [ZERO + n % 10];
      if m >= 10 {
        assert Digits(m) == Digits(m / 10) + [ZERO + m % 10];
        assert |Digits(m / 10)| <= 3 && (m < 1000 ==> |Digits(m / 10)| <= 2);
      }
    }
  }

  /** What the accumulating loop of `utils_textToUInt` has read from `s`. The overflow test is made
      before the last digit is added, so the addition may still wrap. */
  function ReadUnsigned(s: seq<byte>): Option<uint64>
  {
    if s == [] then Some(0)
    else
      match ReadUnsigned(s[..|s| - 1])
      case None => None
      case Some(r) =>
        var c := s[|s| - 1];
        if IsDigit(c) && r <= UINT64_MAX / 10
        then Some((r * 10 + (c - ZERO)) % 0x1_0000_0000_0000_0000)
        else None
  }

  function TextToUnsigned(s: seq<byte>): Option<uint64>
  {
    if s == [] then None else ReadUnsigned(s)
  }

  function TextToInt(s: seq<byte>): Option<int>
  {
    if s == [] then None
    else
      var negative := s[0] == MINUS;
      match ReadUnsigned(if negative then s[1..] else s)
      case None => None
      case Some(r) =>
        if r > INT64_MAX + (if negative then 1 else 0) then None
        else var v: int := r; Some(if negative then -v else v)
  }

  /** `utils_textToUInt`, the loop. */
  method ParseUnsigned(buffer: seq<byte>) returns (result: Option<uint64>)
    ensures result == TextToUnsigned(buffer)
  {
    var length := |buffer|;
    if length == 0 { return None; }
    var value: uint64 := 0;
    var i := 0;
    while i < length
      invariant 0 <= i <= length
      invariant ReadUnsigned(buffer[..i]) == Some(value)
    {
      assert buffer[..i + 1][..i] == buffer[..i];
      if !IsDigit(buffer[i]) || value > UINT64_MAX / 10 {
        UnreadablePrefix(buffer, i + 1);
        return None;
      }
      value := (value * 10 + (buffer[i] - ZERO)) % 0x1_0000_0000_0000_0000;
      i := i + 1;
    }
    assert buffer[..length] == buffer;
    return Some(value);
  }

  /** Once a prefix cannot be read, no extension of it can. */
  lemma {:induction false} UnreadablePrefix(s: seq<byte>, i: nat)
    requires i <= |s| && ReadUnsigned(s[..i]) == None
    ensures ReadUnsigned(s) == None
    decreases |s|
  {
    if i == |s| {
      assert s[..i] == s;
    } else {
      assert s[..|s| - 1][..i] == s[..i];
      UnreadablePrefix(s[..|s| - 1], i);
    }
  }

  lemma {:induction false} ReadDigits(n: uint64)
    ensures ReadUnsigned(Digits(n)) == Some(n)
  {
    var s := Digits(n);
    if n >= 10 {
      ReadDigits(n / 10);
      assert s[..|s| - 1] == Digits(n / 10);
    } else {
      assert s[..|s| - 1] == [];
    }
  }

  /** The reader is right about exactly the numerals below 2^64. */
  lemma {:induction false} ReadUnsignedExact(s: seq<byte>)
    requires IsNumeral(s)
    ensures ReadUnsigned(s) == Some(Numeral(s)) <==> Numeral(s) <= UINT64_MAX
  {
    if s != [] {
      ReadUnsignedExact(s[..|s| - 1]);
    }
  }

  /** 2^64 itself is not refused: the overflow test is passed and the addition wraps to 0. */
  lemma {:induction false} ReadUnsignedWraps(n: nat)
    requires n == UINT64_MAX + 1
    ensures Numeral(Digits(n)) == n && TextToUnsigned(Digits(n)) == Some(0)
  {
    NumeralOfDigits(n);
    var q := UINT64_MAX / 10;
    ReadDigits(q);
    assert n / 10 == q && n % 10 == 6;
    ReadSnoc(Digits(q), ZERO + 6);
  }

  lemma {:induction false} ReadSnoc(s: seq<byte>, c: byte)
    requires IsDigit(c) && ReadUnsigned(s).Some? && ReadUnsigned(s).value <= UINT64_MAX / 10
    ensures ReadUnsigned(s + [c]) == Some((ReadUnsigned(s).value * 10 + (c - ZERO)) % (UINT64_MAX + 1))
  {
    assert (s + [c])[..|s|] == s;
  }

  lemma {:induction false} TextToUnsignedRoundTrip(n: uint64)
    ensures TextToUnsigned(Digits(n)) == Some(n)
  {
    ReadDigits(n);
  }

  /** A signed text is read as the number it stands for when it is a numeral, with a minus sign or without, and in the
      range of 64 bits; any other text is refused. */
  lemma {:induction false} TextToIntExact(s: seq<byte>)
    ensures s == [] ==> TextToInt(s) == None
    ensures s != [] ==>
              var digits := if s[0] == 45 then s[1..] else s;
              && (!IsNumeral(digits) ==> TextToInt(s) == None)
              && (IsNumeral(digits) && Numeral(digits) <= UINT64_MAX ==>
                    var n: int := if s[0] == 45 then 0 - Numeral(digits) else Numeral(digits);
                    TextToInt(s) == if -0x8000_0000_0000_0000 <= n < 0x8000_0000_0000_0000 then Some(n) else None)
  {
    if s != [] {
      var digits := if s[0] == 45 then s[1..] else s;
      OnlyNumerals(digits);
      if IsNumeral(digits) { ReadUnsignedExact(digits); }
      hide ReadUnsigned, Numeral;
    }
  }

  lemma {:induction false} OnlyNumerals(s: seq<byte>)
    ensures ReadUnsigned(s).Some? ==> IsNumeral(s)
  {
    if s != [] {
      OnlyNumerals(s[..|s| - 1]);
      assert forall k :: 0 <= k < |s| - 1 ==> s[k] == s[..|s| - 1][k];
    }
  }

  // ----- printing -----------------------------------------------------------------------------

  /** The digits of `n` in front of what has already been printed of a number. */
  function StillToPrint(n: nat): seq<byte>
  {
    if n == 0 then [] else Digits(n)
  }

  lemma {:induction false} PrintDigit(n: nat, printed: seq<byte>)
    ensures StillToPrint(n / 10) + ([ZERO + n % 10] + printed) == Digits(n) + printed
  {
    if n >= 10 {
      assert Digits(n / 10) + ([ZERO + n % 10] + printed) == (Digits(n / 10) + [ZERO + n % 10]) + printed;
    }
  }

  /** The printing loop of `utils_uintToText`, from the end of the room towards its start. */
  method PrintBackwards(data: uint64, buffer: array<byte>, at: nat, length: nat) returns (index: nat, left: nat)
    requires 0 < length && at + length <= buffer.Length
    modifies buffer
    ensures index < length && (index > 0 ==> left == 0)
    ensures Digits(data) == StillToPrint(left) + buffer[at + index..at + length]
    ensures buffer[..at] == old(buffer[..at])
  {
    hide StillToPrint, Digits;
    index := length - 1;
    left := data;
    buffer[at + index] := ZERO + left % 10;
    PrintDigit(left, []);
    assert buffer[at + index..at + length] == [ZERO + left % 10] + [];
    assert Digits(left) + [] == Digits(left);
    left := left / 10;
    while index > 0 && left > 0
      invariant 0 <= index < length
      invariant Digits(data) == StillToPrint(left) + buffer[at + index..at + length]
      invariant buffer[..at] == old(buffer[..at])
    {
      ghost var printed := buffer[at + index..at + length];
      PrintDigit(left, printed);
      PrintStep(left);
      index := index - 1;
      buffer[at + index] := ZERO + left % 10;
      assert buffer[at + index..at + length] == [ZERO + left % 10] + printed;
      left := left / 10;
    }
  }

  lemma {:induction false} PrintStep(left: nat)
    requires left > 0
    ensures StillToPrint(left) == Digits(left)
  {
  }

  /** `memmove` within a buffer. */
  method MoveDown(buffer: array<byte>, at: nat, shift: nat, n: nat)
    requires at + shift + n <= buffer.Length
    modifies buffer
    ensures buffer[at..at + n] == old(buffer[at + shift..at + shift + n])
    ensures buffer[..at] == old(buffer[..at])
  {
    forall i | 0 <= i < n {
      buffer[at + i] := buffer[at + shift + i];
    }
  }

  /** `utils_uintToText`: the digits are written at the end of the room and then moved to its start;
      0 when they do not fit. */
  method PrintUnsigned(data: uint64, buffer: array<byte>, at: nat, length: nat) returns (n: nat)
    requires at + length <= buffer.Length
    modifies buffer
    ensures n == 0 <==> |Digits(data)| > length
    ensures n > 0 ==> n == |Digits(data)| && Wrote(old(buffer[..]), buffer[..], at, Digits(data))
    ensures buffer[..at] == old(buffer[..at])
  {
    if length == 0 { return 0; }
    var index, left := PrintBackwards(data, buffer, at, length);
    if left > 0 {
      PrintStep(left);
      return 0;
    }
    n := length - index;
    if n < length {
      MoveDown(buffer, at, index, n);
    }
    assert buffer[..at + n] == buffer[..at] + buffer[at..at + n];
  }
}
