/** Characters, their UTF-8 and UTF-16 forms, and the converters between them (xmltok.c).

    Shifts and masks are written as divisions and remainders by powers of two. */
module Characters {
  import opened Bytes

  type Unit = u: int | 0 <= u < 0x10000

  /** The characters the scanners let through: scalar values other than U+FFFE and U+FFFF. */
  predicate IsChar(c: int) {
    0 <= c < 0x110000 && !(0xd800 <= c < 0xe000) && c != 0xfffe && c != 0xffff
  }

  type Char = c: int | 0 <= c < 0x110000 && IsChar(c)

  /** The encoding form of section 3 of RFC 3629. */
  function Utf8(c: Char): (p: seq<Byte>)
    ensures 1 <= |p| <= 4
  {
    if c < 0x80 then Bytes1(c)
    else if c < 0x800 then Bytes2(0xc0 + c / 0x40, 0x80 + c % 0x40)
    else if c < 0x10000 then Bytes3(0xe0 + c / 0x1000, 0x80 + c / 0x40 % 0x40, 0x80 + c % 0x40)
    else Bytes4(0xf0 + c / 0x40000, 0x80 + c / 0x1000 % 0x40, 0x80 + c / 0x40 % 0x40, 0x80 + c % 0x40)
  }

  function Bytes1(a: Byte): seq<Byte> {
    [a]
  }

  function Bytes2(a: Byte, b: Byte): seq<Byte> {
    [a, b]
  }

  function Bytes3(a: Byte, b: Byte, c: Byte): seq<Byte> {
    [a, b, c]
  }

  function Bytes4(a: Byte, b: Byte, c: Byte, d: Byte): seq<Byte> {
    [a, b, c, d]
  }

  /** The encoding form of section 2.1 of RFC 2781. */
  function Utf16(c: Char): (u: seq<Unit>)
    ensures 1 <= |u| <= 2
  {
    if c < 0x10000 then Units1(c) else Units2(0xd800 + (c - 0x10000) / 0x400, 0xdc00 + (c - 0x10000) % 0x400)
  }

  function Units1(u: Unit): seq<Unit> {
    [u]
  }

  function Units2(u: Unit, v: Unit): seq<Unit> {
    [u, v]
  }

  function All8(cs: seq<Char>): seq<Byte> {
    if |cs| == 0 then [] else Utf8(cs[0]) + All8(cs[1..])
  }

  function All16(cs: seq<Char>): seq<Unit> {
    if |cs| == 0 then [] else Utf16(cs[0]) + All16(cs[1..])
  }

  // ----- validity is exactly encodability -----

  function Value2(a: int, b: int): int {
    a % 0x20 * 0x40 + b % 0x40
  }

  function Value3(a: int, b: int, c: int): int {
    a % 0x10 * 0x1000 + b % 0x40 * 0x40 + c % 0x40
  }

  function Value4(a: int, b: int, c: int, d: int): int {
    a % 8 * 0x40000 + b % 0x40 * 0x1000 + c % 0x40 * 0x40 + d % 0x40
  }

  /** The number a character's bytes stand for. */
  function Value(p: seq<Byte>): int
    requires 1 <= |p| <= 4
  {
    if |p| == 1 then p[0]
    else if |p| == 2 then Value2(p[0], p[1])
    else if |p| == 3 then Value3(p[0], p[1], p[2])
    else Value4(p[0], p[1], p[2], p[3])
  }

  /** Whether a sequence has the length its first byte announces and passes the scanners' tests. */
  predicate ValidChar(enc: Encoding, p: seq<Byte>) {
    && 1 <= |p| <= 4 && |p| == Width(TypeOf(enc, p[0]))
    && (if |p| == 1 then p[0] < 0x80 else !InvalidChar(p))
  }

  lemma {:induction false} Groups(c: nat, hi: nat, lo: nat)
    requires lo < 0x40 && c == hi * 0x40 + lo
    ensures c / 0x40 == hi && c % 0x40 == lo
  {
  }

  lemma {:induction false} Shifts(c: nat)
    ensures c / 0x1000 == c / 0x40 / 0x40
    ensures c / 0x40000 == c / 0x1000 / 0x40
    ensures c == c / 0x40 * 0x40 + c % 0x40
  {
  }

  lemma {:induction false} Lead(b: int, base: int, k: int)
    requires base <= b < base + k
    requires (base, k) == (0xc0, 0x20) || (base, k) == (0xe0, 0x10) || (base, k) == (0xf0, 8)
    ensures b % k == b - base
  {
  }

  lemma {:induction false} TrailOf(b: int)
    requires 0x80 <= b < 0xc0
    ensures b % 0x40 == b - 0x80
  {
  }

  lemma {:induction false} Valid2(a: Byte, b: Byte)
    requires 0xc0 <= a < 0xe0 && !Invalid2([a, b])
    ensures IsChar(Value2(a, b)) && Utf8(Value2(a, b)) == [a, b]
  {
    Lead(a, 0xc0, 0x20);
    TrailOf(b);
    Groups(Value2(a, b), a - 0xc0, b - 0x80);
  }

  lemma {:induction false} Valid3(a: Byte, b: Byte, c: Byte)
    requires 0xe0 <= a < 0xf0 && !Invalid3([a, b, c])
    ensures IsChar(Value3(a, b, c)) && Utf8(Value3(a, b, c)) == [a, b, c]
  {
    Lead(a, 0xe0, 0x10);
    TrailOf(b);
    TrailOf(c);
    var v, w := Value3(a, b, c), (a - 0xe0) * 0x40 + (b - 0x80);
    Groups(v, w, c - 0x80);
    Groups(w, a - 0xe0, b - 0x80);
    Shifts(v);
  }

  lemma {:induction false} Valid4(a: Byte, b: Byte, c: Byte, d: Byte)
    requires 0xf0 <= a < 0xf5 && !Invalid4([a, b, c, d])
    ensures IsChar(Value4(a, b, c, d)) && Utf8(Value4(a, b, c, d)) == [a, b, c, d]
  {
    Lead(a, 0xf0, 8);
    TrailOf(b);
    TrailOf(c);
    TrailOf(d);
    var v, x := Value4(a, b, c, d), (a - 0xf0) * 0x40 + (b - 0x80);
    var w := x * 0x40 + (c - 0x80);
    Groups(v, w, d - 0x80);
    Groups(w, x, c - 0x80);
    Groups(x, a - 0xf0, b - 0x80);
    Shifts(v);
  }

  lemma {:induction false} Encoded2(c: Char)
    requires 0x80 <= c < 0x800
    ensures var p := Utf8(c); |p| == 2 && 0xc0 <= p[0] < 0xe0 && !Invalid2(p) && Value(p) == c
  {
    Shifts(c);
    Lead(0xc0 + c / 0x40, 0xc0, 0x20);
    TrailOf(0x80 + c % 0x40);
  }

  lemma {:induction false} Encoded3(c: Char)
    requires 0x800 <= c < 0x10000
    ensures var p := Utf8(c); |p| == 3 && 0xe0 <= p[0] < 0xf0 && !Invalid3(p) && Value(p) == c
  {
    Shifts(c);
    Shifts(c / 0x40);
    var h, m, l := c / 0x1000, c / 0x40 % 0x40, c % 0x40;
    assert c == h * 0x1000 + m * 0x40 + l;
    assert IsChar(c);
    Lead(0xe0 + c / 0x1000, 0xe0, 0x10);
    TrailOf(0x80 + c / 0x40 % 0x40);
    TrailOf(0x80 + c % 0x40);
  }

  lemma {:induction false} Encoded4(c: Char)
    requires 0x10000 <= c
    ensures var p := Utf8(c); |p| == 4 && 0xf0 <= p[0] < 0xf5 && !Invalid4(p) && Value(p) == c
  {
    Shifts(c);
    Shifts(c / 0x40);
    Shifts(c / 0x1000);
    Lead(0xf0 + c / 0x40000, 0xf0, 8);
    TrailOf(0x80 + c / 0x1000 % 0x40);
    TrailOf(0x80 + c / 0x40 % 0x40);
    TrailOf(0x80 + c % 0x40);
  }

  lemma {:induction false} LeadsByLength(enc: Encoding, c: Char)
    ensures Width(TypeOf(enc, Utf8(c)[0])) == |Utf8(c)|
    ensures IsLead(TypeOf(enc, Utf8(c)[0])) <==> c >= 0x80
    ensures c < 0x80 ==> Utf8(c) == [c]
  {
    if 0x80 <= c < 0x800 {
      Encoded2(c);
    } else if 0x800 <= c < 0x10000 {
      Encoded3(c);
    } else if 0x10000 <= c {
      Encoded4(c);
    }
  }

  /** The sequences the scanners accept are the encodings of characters, and no others. */
  lemma {:induction false} ValidExactly(enc: Encoding, p: seq<Byte>)
    ensures ValidChar(enc, p) <==> 1 <= |p| <= 4 && IsChar(Value(p)) && Utf8(Value(p)) == p
  {
    if ValidChar(enc, p) {
      AcceptedIsEncoded(enc, p);
    }
    if 1 <= |p| <= 4 && IsChar(Value(p)) && Utf8(Value(p)) == p {
      EncodedIsAccepted(enc, Value(p));
    }
  }

  lemma {:induction false} AcceptedIsEncoded(enc: Encoding, p: seq<Byte>)
    requires ValidChar(enc, p)
    ensures IsChar(Value(p)) && Utf8(Value(p)) == p
  {
    if |p| == 2 {
      assert p == [p[0], p[1]];
      Valid2(p[0], p[1]);
    } else if |p| == 3 {
      assert p == [p[0], p[1], p[2]];
      Valid3(p[0], p[1], p[2]);
    } else if |p| == 4 {
      assert p == [p[0], p[1], p[2], p[3]];
      Valid4(p[0], p[1], p[2], p[3]);
    }
  }

  /** Decoding undoes encoding. */
  lemma {:induction false} EncodedIsAccepted(enc: Encoding, c: Char)
    ensures ValidChar(enc, Utf8(c)) && Value(Utf8(c)) == c
  {
    if 0x80 <= c < 0x800 {
      Encoded2(c);
    } else if 0x800 <= c < 0x10000 {
      Encoded3(c);
    } else if 0x10000 <= c {
      Encoded4(c);
    }
  }
}
