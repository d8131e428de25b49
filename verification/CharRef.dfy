/** Character references: what the scanner accepts, the number it stands for, and its encoding. */
module CharRefs {
  import opened Bytes
  import opened MarkupMachine
  import opened Characters

  /** The C type the number is accumulated in; staying inside it is part of the proof. */
  newtype int32 = x: int | -0x8000_0000 <= x < 0x8000_0000

  const NUM: Byte := 0x23
  const SEMI: Byte := 0x3b
  const LOWER_X: Byte := 0x78

  predicate IsDigit(b: Byte, hex: bool) {
    0x30 <= b < 0x3a || (hex && (0x41 <= b < 0x47 || 0x61 <= b < 0x67))
  }

  function DigitValue(b: Byte): (v: nat)
    requires IsDigit(b, true)
    ensures v < 16 && (IsDigit(b, false) ==> v < 10)
  {
    if b < 0x3a then b - 0x30 else if b < 0x47 then 10 + (b - 0x41) else 10 + (b - 0x61)
  }

  /** The number a numeral stands for. */
  function Numeral(digits: seq<Byte>, radix: nat): nat
    requires forall i | 0 <= i < |digits| :: IsDigit(digits[i], true)
  {
    if |digits| == 0 then 0
    else Numeral(digits[..|digits| - 1], radix) * radix + DigitValue(digits[|digits| - 1])
  }

  /** "&#" digits ";" or "&#x" digits ";" between `ptr` and `next`. */
  predicate IsCharRef(text: seq<Byte>, ptr: nat, next: nat) {
    && ptr + 3 < next <= |text|
    && text[ptr + 1] == NUM && text[next - 1] == SEMI
    && (IsHex(text, ptr) ==> ptr + 4 < next)
    && forall i | Start(text, ptr) <= i < next - 1 :: IsDigit(text[i], IsHex(text, ptr))
  }

  predicate IsHex(text: seq<Byte>, ptr: nat)
    requires ptr + 2 < |text|
  {
    text[ptr + 2] == LOWER_X
  }

  function Start(text: seq<Byte>, ptr: nat): nat
    requires ptr + 2 < |text|
  {
    if IsHex(text, ptr) then ptr + 3 else ptr + 2
  }

  function NumberOf(text: seq<Byte>, ptr: nat, next: nat): nat
    requires IsCharRef(text, ptr, next)
  {
    Numeral(text[Start(text, ptr)..next - 1], if IsHex(text, ptr) then 16 else 10)
  }

  /** The production Char of section 2.2 of XML 1.0. */
  predicate IsXmlChar(c: int) {
    c == 0x9 || c == 0xa || c == 0xd || 0x20 <= c <= 0xd7ff || 0xe000 <= c <= 0xfffd || 0x10000 <= c <= 0x10ffff
  }

  // ----- what the scanner accepts -----

  lemma {:induction false} DigitTypes(enc: Encoding, b: Byte)
    ensures TypeOf(enc, b).Digit? <==> IsDigit(b, false)
    ensures TypeOf(enc, b).Digit? || TypeOf(enc, b).Hex? <==> IsDigit(b, true)
    ensures TypeOf(enc, b).Semi? <==> b == SEMI
    ensures TypeOf(enc, b).Num? <==> b == NUM
    ensures b == LOWER_X ==> TypeOf(enc, b).NmStrt?
  {
  }

  lemma {:induction false} DigitsScanned(enc: Encoding, hex: bool, text: seq<Byte>, ptr: nat)
    requires ptr <= |text|
    ensures var r := Scan(enc, if hex then HexDigits(InContent) else Digits(InContent), text, ptr);
            r.Token? ==> && r.kind.CharRef? && ptr < r.next <= |text| && text[r.next - 1] == SEMI
                         && forall i | ptr <= i < r.next - 1 :: IsDigit(text[i], hex)
    decreases |text| - ptr
  {
    hide TypeOf;
    hide Scan;
    hide Step;
    ScanStepRef(enc, if hex then HexDigits(InContent) else Digits(InContent), text, ptr);
    if ptr < |text| {
      DigitTypes(enc, text[ptr]);
      if IsDigit(text[ptr], hex) {
        DigitsScanned(enc, hex, text, ptr + 1);
      }
    }
  }

  lemma {:induction false} NameScanned(enc: Encoding, text: seq<Byte>, ptr: nat)
    requires ptr <= |text|
    ensures var r := Scan(enc, RefName(InContent), text, ptr); r.Token? ==> r.kind.EntityRef?
    decreases |text| - ptr
  {
    hide TypeOf;
    hide Scan;
    hide Step;
    hide CheckName;
    ScanStepRef(enc, RefName(InContent), text, ptr);
    if ptr < |text| {
      CharSettled(enc, text, [], ptr);
      var a := CheckName(enc, text, ptr);
      if a.Go? {
        NameScanned(enc, text, a.next);
      }
    }
  }

  lemma {:induction false} HexScanned(enc: Encoding, text: seq<Byte>, ptr: nat)
    requires ptr <= |text|
    ensures var r := Scan(enc, HexRef(InContent), text, ptr);
            r.Token? ==> && r.kind.CharRef? && ptr + 1 < r.next <= |text| && text[r.next - 1] == SEMI
                         && forall i | ptr <= i < r.next - 1 :: IsDigit(text[i], true)
  {
    hide TypeOf;
    hide Scan;
    hide Step;
    ScanStepRef(enc, HexRef(InContent), text, ptr);
    if ptr < |text| {
      DigitTypes(enc, text[ptr]);
      if IsDigit(text[ptr], true) {
        DigitsScanned(enc, true, text, ptr + 1);
      }
    }
  }

  lemma {:induction false} NumberScanned(enc: Encoding, text: seq<Byte>, ptr: nat)
    requires ptr + 2 <= |text| && text[ptr + 1] == NUM
    ensures var r := Scan(enc, NumRef(InContent), text, ptr + 2);
            r.Token? ==> r.kind.CharRef? && IsCharRef(text, ptr, r.next)
  {
    hide TypeOf;
    hide Scan;
    hide Step;
    ScanStepRef(enc, NumRef(InContent), text, ptr + 2);
    if ptr + 2 < |text| {
      DigitTypes(enc, text[ptr + 2]);
      if text[ptr + 2] == LOWER_X {
        HexScanned(enc, text, ptr + 3);
      } else if IsDigit(text[ptr + 2], false) {
        DigitsScanned(enc, false, text, ptr + 3);
      }
    }
  }

  /** Every reference the scanner returns as a character reference has the form of one. */
  lemma {:induction false} ScannedIsCharRef(enc: Encoding, text: seq<Byte>, ptr: nat, next: nat)
    requires ptr < |text| && Scan(enc, Ref(InContent), text, ptr + 1) == Token(CharRef, next)
    ensures IsCharRef(text, ptr, next)
  {
    hide TypeOf;
    hide Scan;
    hide Step;
    hide CheckNmstrt;
    hide IsCharRef;
    ScanStepRef(enc, Ref(InContent), text, ptr + 1);
    CharSettled(enc, text, [], ptr + 1);
    DigitTypes(enc, text[ptr + 1]);
    var a := CheckNmstrt(enc, text, ptr + 1);
    if a.Go? {
      NameScanned(enc, text, a.next);
    } else if text[ptr + 1] == NUM {
      NumberScanned(enc, text, ptr);
    }
  }

  // ----- the number -----

  lemma {:induction false} NumeralGrows(digits: seq<Byte>, k: nat, radix: nat)
    requires k <= |digits| && radix >= 1
    requires forall i | 0 <= i < |digits| :: IsDigit(digits[i], true)
    ensures Numeral(digits[..k], radix) <= Numeral(digits, radix)
    decreases |digits|
  {
    if k < |digits| {
      var init := digits[..|digits| - 1];
      NumeralGrows(init, k, radix);
      assert init[..k] == digits[..k];
      Grows(Numeral(init, radix), radix);
    } else {
      assert digits[..k] == digits;
    }
  }

  lemma {:induction false} Grows(n: nat, radix: nat)
    requires radix >= 1
    ensures n <= n * radix
  {
  }

  /** checkCharRefNumber; in the Latin-1 table only bytes below 0x80 are no XML characters. */
  function CheckCharRefNumber(result: int): int
    requires 0 <= result < 0x110000
  {
    var high := result / 0x100;
    if 0xd8 <= high < 0xe0 then -1
    else if high == 0 && result < 0x80 &&
        AsciiType(Encoding(false, false, _ => false, _ => false), result).NonXml? then -1
    else if high == 0xff && (result == 0xfffe || result == 0xffff) then -1
    else result
  }

  lemma {:induction false} CheckIsChar(result: int)
    requires 0 <= result < 0x110000
    ensures CheckCharRefNumber(result) == if IsXmlChar(result) then result else -1
    ensures IsXmlChar(result) ==> IsChar(result)
  {
  }

  /** charRefNumber: the exact number if it is an XML character, and -1 if it is not. */
  method CharRefNumber(text: seq<Byte>, start: nat, ghost next: nat) returns (number: int32)
    requires IsCharRef(text, start, next)
    ensures number as int == if IsXmlChar(NumberOf(text, start, next)) then NumberOf(text, start, next) else -1
  {
    hide Numeral;
    hide CheckCharRefNumber;
    ghost var from := Start(text, start);
    ghost var digits := text[from..next - 1];
    var result: int32 := 0;
    var ptr := start + 2;
    if text[ptr] == LOWER_X {
      ptr := ptr + 1;
      NumeralEmpty(digits, 16);
      while text[ptr] != SEMI
        invariant from <= ptr < next
        invariant 0 <= result < 0x110000 && result as int == Numeral(digits[..ptr - from], 16)
        decreases next - ptr
      {
        NumeralStep(digits, ptr - from, 16);
        result := AddHexDigit(result, text[ptr]);
        NumeralGrows(digits, ptr - from + 1, 16);
        ptr := ptr + 1;
        if result >= 0x110000 {
          return -1;
        }
      }
    } else {
      NumeralEmpty(digits, 10);
      while text[ptr] != SEMI
        invariant from <= ptr < next
        invariant 0 <= result < 0x110000 && result as int == Numeral(digits[..ptr - from], 10)
        decreases next - ptr
      {
        NumeralStep(digits, ptr - from, 10);
        result := result * 10;
        result := result + (text[ptr] - 0x30) as int32;
        NumeralGrows(digits, ptr - from + 1, 10);
        ptr := ptr + 1;
        if result >= 0x110000 {
          return -1;
        }
      }
    }
    assert digits[..ptr - from] == digits;
    CheckIsChar(result as int);
    number := CheckCharRefNumber(result as int) as int32;
  }

  lemma {:induction false} NumeralEmpty(digits: seq<Byte>, radix: nat)
    requires forall i | 0 <= i < |digits| :: IsDigit(digits[i], true)
    ensures Numeral(digits[..0], radix) == 0
  {
  }

  lemma {:induction false} NumeralStep(digits: seq<Byte>, k: nat, radix: nat)
    requires k < |digits|
    requires forall i | 0 <= i < |digits| :: IsDigit(digits[i], true)
    ensures Numeral(digits[..k + 1], radix) == Numeral(digits[..k], radix) * radix + DigitValue(digits[k])
  {
    assert digits[..k + 1][..k] == digits[..k];
  }

  /** The switch over the hexadecimal digits. */
  method AddHexDigit(result: int32, c: Byte) returns (r: int32)
    requires 0 <= result < 0x110000 && IsDigit(c, true)
    ensures r as int == result as int * 16 + DigitValue(c)
  {
    r := result * 16;
    if 0x30 <= c < 0x3a {
      r := r + (c - 0x30) as int32;
    } else if 0x41 <= c < 0x47 {
      r := r + (10 + (c - 0x41)) as int32;
    } else {
      r := r + (10 + (c - 0x61)) as int32;
    }
  }

  // ----- the encodings -----

  /** XmlUtf8Encode: the bytes of a character, or nothing for a number that is none. */
  method XmlUtf8Encode(c: int, buf: array<Byte>) returns (n: nat)
    requires buf.Length >= 4
    modifies buf
    ensures n == 0 <==> c < 0 || c >= 0x110000
    ensures IsChar(c) ==> n == |Utf8(c)| && buf[..n] == Utf8(c)
  {
    if c < 0 {
      return 0;
    }
    if c < 0x80 {
      buf[0] := c;
      return 1;
    }
    if c < 0x800 {
      buf[0], buf[1] := c / 0x40 + 0xc0, c % 0x40 + 0x80;
      return 2;
    }
    if c < 0x10000 {
      buf[0], buf[1], buf[2] := c / 0x1000 + 0xe0, c / 0x40 % 0x40 + 0x80, c % 0x40 + 0x80;
      return 3;
    }
    if c < 0x110000 {
      buf[0], buf[1], buf[2], buf[3] :=
        c / 0x40000 + 0xf0, c / 0x1000 % 0x40 + 0x80, c / 0x40 % 0x40 + 0x80, c % 0x40 + 0x80;
      return 4;
    }
    return 0;
  }

  /** XmlUtf16Encode */
  method XmlUtf16Encode(c: int, buf: array<Unit>) returns (n: nat)
    requires buf.Length >= 2
    modifies buf
    ensures n == 0 <==> c < 0 || c >= 0x110000
    ensures IsChar(c) ==> n == |Utf16(c)| && buf[..n] == Utf16(c)
  {
    if c < 0 {
      return 0;
    }
    if c < 0x10000 {
      buf[0] := c;
      return 1;
    }
    if c < 0x110000 {
      buf[0], buf[1] := (c - 0x10000) / 0x400 + 0xd800, (c - 0x10000) % 0x400 + 0xdc00;
      return 2;
    }
    return 0;
  }
}
