/** The converters between UTF-8 and UTF-16 (xmltok.c), and their round trip.

    A converter stops when its input or its output is used up, and only between characters. */
module Transcoding {
  import opened Bytes
  import opened Characters

  // ----- texts as sequences of characters -----

  lemma {:induction false} All8Appends(cs: seq<Char>, ds: seq<Char>)
    ensures All8(cs + ds) == All8(cs) + All8(ds)
    decreases |cs|
  {
    if |cs| == 0 {
      assert cs + ds == ds;
    } else {
      assert (cs + ds)[0] == cs[0] && (cs + ds)[1..] == cs[1..] + ds;
      All8Appends(cs[1..], ds);
    }
  }

  lemma {:induction false} All16Appends(cs: seq<Char>, ds: seq<Char>)
    ensures All16(cs + ds) == All16(cs) + All16(ds)
    decreases |cs|
  {
    if |cs| == 0 {
      assert cs + ds == ds;
    } else {
      assert (cs + ds)[0] == cs[0] && (cs + ds)[1..] == cs[1..] + ds;
      All16Appends(cs[1..], ds);
    }
  }

  lemma {:induction false} NextChar(cs: seq<Char>, n: nat)
    requires n < |cs|
    ensures All8(cs[n..]) == Utf8(cs[n]) + All8(cs[n + 1..])
    ensures All16(cs[n..]) == Utf16(cs[n]) + All16(cs[n + 1..])
    ensures All8(cs[..n + 1]) == All8(cs[..n]) + Utf8(cs[n])
    ensures All16(cs[..n + 1]) == All16(cs[..n]) + Utf16(cs[n])
  {
    hide Utf8;
    hide Utf16;
    assert cs[n..][1..] == cs[n + 1..];
    assert cs[..n + 1] == cs[..n] + [cs[n]];
    All8Appends(cs[..n], [cs[n]]);
    All16Appends(cs[..n], [cs[n]]);
    assert All8([cs[n]]) == Utf8(cs[n]);
    assert All16([cs[n]]) == Utf16(cs[n]);
  }

  // ----- UTF-8 to UTF-16 -----

  /** One character: its units and the bytes it takes, as utf8_toUtf16 computes them. */
  function Unpacked(enc: Encoding, text: seq<Byte>, from: nat): seq<int>
    requires from < |text| && from + Width(TypeOf(enc, text[from])) <= |text|
  {
    var t := TypeOf(enc, text[from]);
    if t.Lead2? then [Value2(text[from], text[from + 1])]
    else if t.Lead3? then [Value3(text[from], text[from + 1], text[from + 2])]
    else if t.Lead4? then
      var n := Value4(text[from], text[from + 1], text[from + 2], text[from + 3]) - 0x10000;
      [n / 0x400 + 0xd800, n % 0x400 + 0xdc00]
    else [text[from]]
  }

  lemma {:induction false} UnpackedIsUtf16(enc: Encoding, text: seq<Byte>, from: nat, c: Char)
    requires from + |Utf8(c)| <= |text| && text[from..from + |Utf8(c)|] == Utf8(c)
    ensures from < |text| && Width(TypeOf(enc, text[from])) == |Utf8(c)|
    ensures Unpacked(enc, text, from) == Utf16(c)
    ensures TypeOf(enc, text[from]).Lead4? <==> |Utf16(c)| == 2
  {
    hide TypeOf;
    var p := Utf8(c);
    hide Utf8;
    assert p[0] == text[from];
    LeadsByLength(enc, c);
    EncodedIsAccepted(enc, c);
    Lengths(c);
    if |p| == 2 {
      assert p[1] == text[from + 1];
    } else if |p| == 3 {
      assert p[1] == text[from + 1] && p[2] == text[from + 2];
    } else if |p| == 4 {
      assert p[1] == text[from + 1] && p[2] == text[from + 2] && p[3] == text[from + 3];
    }
  }

  lemma {:induction false} Lengths(c: Char)
    ensures |Utf8(c)| == if c < 0x80 then 1 else if c < 0x800 then 2 else if c < 0x10000 then 3 else 4
  {
  }

  /** The body of the loop: stores one character if it fits. */
  method PutUnits(enc: Encoding, text: seq<Byte>, from: nat, to: array<Unit>, toEnd: nat, toLim: nat, ghost c: Char)
    returns (size: nat)
    requires from + |Utf8(c)| <= |text| && text[from..from + |Utf8(c)|] == Utf8(c)
    requires toEnd < toLim <= to.Length
    modifies to
    ensures size == if toEnd + |Utf16(c)| <= toLim then |Utf16(c)| else 0
    ensures size > 0 ==> to[..toEnd + size] == old(to[..toEnd]) + Utf16(c)
    ensures to[toEnd + size..] == old(to[toEnd + size..]) && to[..toEnd] == old(to[..toEnd])
  {
    hide TypeOf;
    hide Utf8;
    hide Utf16;
    UnpackedIsUtf16(enc, text, from, c);
    var t := TypeOf(enc, text[from]);
    if t.Lead4? {
      if toEnd + 1 == toLim {
        return 0;
      }
      var u := Value4(text[from], text[from + 1], text[from + 2], text[from + 3]) - 0x10000;
      to[toEnd], to[toEnd + 1] := u / 0x400 + 0xd800, u % 0x400 + 0xdc00;
      return 2;
    } else {
      to[toEnd] := if t.Lead2? then Value2(text[from], text[from + 1])
      else if t.Lead3? then Value3(text[from], text[from + 1], text[from + 2])
      else text[from];
      return 1;
    }
  }

  /**
   * utf8_toUtf16: converts as many characters as fit, and stops between characters.
   * `cs` are the characters the input holds; `n` of them are converted.
   */
  method ToUtf16(enc: Encoding, text: seq<Byte>, fromP: nat, fromLim: nat,
                 to: array<Unit>, toP: nat, toLim: nat, ghost cs: seq<Char>)
    returns (from: nat, toEnd: nat, ghost n: nat)
    requires fromP <= fromLim <= |text| && toP <= toLim <= to.Length
    requires text[fromP..fromLim] == All8(cs)
    modifies to
    ensures n <= |cs| && fromP <= from <= fromLim && toP <= toEnd <= toLim
    ensures text[from..fromLim] == All8(cs[n..])
    ensures to[..toEnd] == old(to[..toP]) + All16(cs[..n])
    ensures n < |cs| ==> toLim - toEnd < |Utf16(cs[n])|
    ensures to[toEnd..] == old(to[toEnd..])
  {
    hide TypeOf;
    hide All8;
    hide All16;
    hide Utf8;
    hide Utf16;
    from, toEnd, n := fromP, toP, 0;
    assert cs[0..] == cs;
    EmptyText(cs[..0]);
    assert to[..toP] == old(to[..toP]) + All16(cs[..0]);
    while from != fromLim && toEnd != toLim
      invariant n <= |cs| && fromP <= from <= fromLim && toP <= toEnd <= toLim
      invariant text[from..fromLim] == All8(cs[n..])
      invariant to[..toEnd] == old(to[..toP]) + All16(cs[..n])
      invariant to[toEnd..] == old(to[toEnd..])
      decreases fromLim - from
    {
      SplitText(text, from, fromLim, cs, n);
      ghost var before, after := to[..toEnd], to[toEnd..];
      var size := PutUnits(enc, text, from, to, toEnd, toLim, cs[n]);
      if size == 0 {
        break;
      }
      assert to[toEnd + size..] == after[size..] == old(to[toEnd..])[size..] == old(to[toEnd + size..]);
      assert before + Utf16(cs[n]) == old(to[..toP]) + (All16(cs[..n]) + Utf16(cs[n]));
      toEnd := toEnd + size;
      UnpackedIsUtf16(enc, text, from, cs[n]);
      from := from + Width(TypeOf(enc, text[from]));
      n := n + 1;
    }
    EmptyText(cs[n..]);
  }

  /** The first of the characters still to be converted. */
  lemma {:induction false} SplitText(text: seq<Byte>, from: nat, fromLim: nat, cs: seq<Char>, n: nat)
    requires from < fromLim <= |text| && n <= |cs|
    requires text[from..fromLim] == All8(cs[n..])
    ensures n < |cs|
    ensures var mid := from + |Utf8(cs[n])|;
            && from < mid <= fromLim && text[from..mid] == Utf8(cs[n]) && text[mid..fromLim] == All8(cs[n + 1..])
    ensures All16(cs[..n + 1]) == All16(cs[..n]) + Utf16(cs[n])
  {
    hide All8;
    hide All16;
    hide Utf8;
    hide Utf16;
    EmptyText(cs[n..]);
    NextChar(cs, n);
    var size := |Utf8(cs[n])|;
    assert text[from..from + size] == text[from..fromLim][..size];
    assert text[from + size..fromLim] == text[from..fromLim][size..];
  }

  lemma {:induction false} EmptyText(cs: seq<Char>)
    ensures |All8(cs)| == 0 <==> |cs| == 0
    ensures |All16(cs)| == 0 <==> |cs| == 0
    ensures |cs| > 0 ==> |Utf16(cs[0])| >= 1 && |Utf8(cs[0])| >= 1
  {
  }

  // ----- UTF-16 to UTF-8 -----

  /** The two-byte case: the high and low byte of a unit below 0x800. */
  function Pack2(hi: int, lo: int): seq<int> {
    [0xc0 + hi * 4 + lo / 0x40, 0x80 + lo % 0x40]
  }

  function Pack3(hi: int, lo: int): seq<int> {
    [0xe0 + hi / 0x10, 0x80 + hi % 0x10 * 4 + lo / 0x40, 0x80 + lo % 0x40]
  }

  /** The surrogate case: 16 bits of the two units, and the plane. */
  function Pack4(hi: int, lo: int, hi2: int, lo2: int): seq<int> {
    var plane := hi % 4 * 4 + lo / 0x40 % 4 + 1;
    [0xf0 + plane / 4, 0x80 + lo / 4 % 0x10 + plane % 4 * 0x10,
     0x80 + lo % 4 * 0x10 + hi2 % 4 * 4 + lo2 / 0x40, 0x80 + lo2 % 0x40]
  }

  lemma {:induction false} Pack2IsUtf8(u: Char)
    requires 0x80 <= u < 0x800
    ensures Pack2(u / 0x100, u % 0x100) == Utf8(u)
  {
    Groups(u, u / 0x100 * 4 + u % 0x100 / 0x40, u % 0x100 % 0x40);
  }

  lemma {:induction false} Pack3IsUtf8(u: Char)
    requires 0x800 <= u < 0x10000
    ensures Pack3(u / 0x100, u % 0x100) == Utf8(u)
  {
    var hi, lo := u / 0x100, u % 0x100;
    Groups(u, hi * 4 + lo / 0x40, lo % 0x40);
    Groups(hi * 4 + lo / 0x40, hi / 0x10, hi % 0x10 * 4 + lo / 0x40);
    Shifts(u);
  }

  /** The four bytes of a character, from its plane and its 4, 6 and 6 further bits. */
  lemma {:induction false} FourBytes(c: Char, plane: nat, mid: nat, low: nat, last: nat)
    requires 0x10000 <= c && mid < 0x10 && low < 0x40 && last < 0x40
    requires c == plane * 0x10000 + mid * 0x1000 + low * 0x40 + last
    ensures Utf8(c) == [0xf0 + plane / 4, 0x80 + plane % 4 * 0x10 + mid, 0x80 + low, 0x80 + last]
  {
    Groups(c, plane * 0x400 + mid * 0x40 + low, last);
    Groups(plane * 0x400 + mid * 0x40 + low, plane * 0x10 + mid, low);
    Groups(plane * 0x10 + mid, plane / 4, plane % 4 * 0x10 + mid);
    Shifts(c);
  }

  lemma {:induction false} Pack4IsUtf8(c: Char)
    requires 0x10000 <= c
    ensures |Utf16(c)| == 2
    ensures var u := Utf16(c); Pack4(u[0] / 0x100, u[0] % 0x100, u[1] / 0x100, u[1] % 0x100) == Utf8(c)
  {
    hide Utf8;
    var u := Utf16(c);
    var hi, lo, hi2, lo2 := u[0] / 0x100, u[0] % 0x100, u[1] / 0x100, u[1] % 0x100;
    Surrogates(c, hi - 0xd8, lo, hi2 - 0xdc, lo2);
    SixBits(lo, hi2 - 0xdc, lo2);
    FourBytes(c, hi % 4 * 4 + lo / 0x40 + 1, lo / 4 % 0x10, lo % 4 * 0x10 + hi2 % 4 * 4 + lo2 / 0x40, lo2 % 0x40);
  }

  lemma {:induction false} SixBits(lo: nat, rh: nat, lo2: nat)
    requires lo < 0x100 && rh < 4 && lo2 < 0x100
    ensures lo / 0x40 % 4 == lo / 0x40
    ensures lo / 4 % 0x10 < 0x10 && lo % 4 * 0x10 + rh * 4 + lo2 / 0x40 < 0x40
  {
  }

  /** What the bytes of a surrogate pair hold. */
  lemma {:induction false} Surrogates(c: Char, qh: int, lo: int, rh: int, lo2: int)
    requires 0x10000 <= c
    requires 0xd800 + (c - 0x10000) / 0x400 == (qh + 0xd8) * 0x100 + lo && 0 <= lo < 0x100
    requires 0xdc00 + (c - 0x10000) % 0x400 == (rh + 0xdc) * 0x100 + lo2 && 0 <= lo2 < 0x100
    ensures 0 <= qh < 4 && 0 <= rh < 4
    ensures (qh + 0xd8) % 4 == qh && (rh + 0xdc) % 4 == rh
    ensures c == (qh * 4 + lo / 0x40 + 1) * 0x10000 + lo / 4 % 0x10 * 0x1000 + lo % 4 * 0x400 + rh * 0x100 + lo2
    ensures lo2 == lo2 / 0x40 * 0x40 + lo2 % 0x40
  {
    assert c - 0x10000 == (qh * 0x100 + lo) * 0x400 + (rh * 0x100 + lo2);
    assert lo == lo / 0x40 * 0x40 + lo / 4 % 0x10 * 4 + lo % 4;
  }

  /** How the converter tells the cases apart: by the high byte, and the low byte below 0x80. */
  lemma {:induction false} UnitCase(c: Char)
    ensures var hi, lo := Utf16(c)[0] / 0x100, Utf16(c)[0] % 0x100;
            && (0xd8 <= hi < 0xdc <==> |Utf16(c)| == 2)
            && (hi == 0 && lo < 0x80 <==> |Utf8(c)| == 1)
            && (hi < 8 <==> |Utf8(c)| <= 2)
            && (hi == 0 && lo < 0x80 ==> Utf8(c) == [lo])
            && (|Utf16(c)| == 1 ==> hi * 0x100 + lo == c)
            && (|Utf8(c)| == 4 <==> |Utf16(c)| == 2)
  {
    assert IsChar(c);
    Lengths(c);
    hide Utf8;
    assert c < 0x80 ==> Utf8(c) == [c] by {
      LeadsByLength(Encoding(false, false, _ => true, _ => true), c);
    }
  }

  /** The body of the loop: stores the bytes of one character if they fit. */
  method PutBytes(units: seq<Unit>, from: nat, to: array<Byte>, toEnd: nat, toLim: nat, ghost c: Char)
    returns (size: nat)
    requires from + |Utf16(c)| <= |units| && units[from..from + |Utf16(c)|] == Utf16(c)
    requires toEnd <= toLim <= to.Length
    modifies to
    ensures size == if toEnd + |Utf8(c)| <= toLim then |Utf8(c)| else 0
    ensures size > 0 ==> to[..toEnd + size] == old(to[..toEnd]) + Utf8(c)
    ensures to[toEnd + size..] == old(to[toEnd + size..]) && to[..toEnd] == old(to[..toEnd])
  {
    hide Utf8;
    hide Utf16;
    hide Pack2;
    hide Pack3;
    hide Pack4;
    ghost var form := Utf16(c);
    assert units[from] == form[0];
    UnitCase(c);
    Lengths(c);
    var lo, hi := units[from] % 0x100, units[from] / 0x100;
    if hi == 0 && lo < 0x80 {
      if toEnd == toLim {
        return 0;
      }
      to[toEnd] := lo;
      return 1;
    } else if hi < 8 {
      if toLim - toEnd < 2 {
        return 0;
      }
      Pack2IsUtf8(c);
      size := Put2(to, toEnd, Pack2(hi, lo), c);
    } else if 0xd8 <= hi < 0xdc {
      if toLim - toEnd < 4 {
        return 0;
      }
      assert units[from + 1] == form[1];
      Pack4IsUtf8(c);
      size := Put4(to, toEnd, Pack4(hi, lo, units[from + 1] / 0x100, units[from + 1] % 0x100), c);
    } else {
      if toLim - toEnd < 3 {
        return 0;
      }
      Pack3IsUtf8(c);
      size := Put3(to, toEnd, Pack3(hi, lo), c);
    }
  }

  method Put2(to: array<Byte>, at: nat, bytes: seq<int>, ghost c: Char) returns (size: nat)
    requires |Utf8(c)| == 2 && bytes == Utf8(c) && at + 2 <= to.Length
    modifies to
    ensures size == 2 && to[..at + 2] == old(to[..at]) + Utf8(c)
    ensures to[at + 2..] == old(to[at + 2..]) && to[..at] == old(to[..at])
  {
    hide Utf8;
    ghost var p := Utf8(c);
    assert bytes[0] == p[0] && bytes[1] == p[1];
    to[at], to[at + 1] := bytes[0], bytes[1];
    return 2;
  }

  method Put3(to: array<Byte>, at: nat, bytes: seq<int>, ghost c: Char) returns (size: nat)
    requires |Utf8(c)| == 3 && bytes == Utf8(c) && at + 3 <= to.Length
    modifies to
    ensures size == 3 && to[..at + 3] == old(to[..at]) + Utf8(c)
    ensures to[at + 3..] == old(to[at + 3..]) && to[..at] == old(to[..at])
  {
    hide Utf8;
    ghost var p := Utf8(c);
    assert bytes[0] == p[0] && bytes[1] == p[1] && bytes[2] == p[2];
    to[at], to[at + 1], to[at + 2] := bytes[0], bytes[1], bytes[2];
    return 3;
  }

  method Put4(to: array<Byte>, at: nat, bytes: seq<int>, ghost c: Char) returns (size: nat)
    requires |Utf8(c)| == 4 && bytes == Utf8(c) && at + 4 <= to.Length
    modifies to
    ensures size == 4 && to[..at + 4] == old(to[..at]) + Utf8(c)
    ensures to[at + 4..] == old(to[at + 4..]) && to[..at] == old(to[..at])
  {
    hide Utf8;
    ghost var p := Utf8(c);
    assert bytes[0] == p[0] && bytes[1] == p[1] && bytes[2] == p[2] && bytes[3] == p[3];
    to[at], to[at + 1], to[at + 2], to[at + 3] := bytes[0], bytes[1], bytes[2], bytes[3];
    return 4;
  }

  lemma {:induction false} SplitUnits(units: seq<Unit>, from: nat, fromLim: nat, cs: seq<Char>, n: nat)
    requires from < fromLim <= |units| && n <= |cs|
    requires units[from..fromLim] == All16(cs[n..])
    ensures n < |cs|
    ensures var mid := from + |Utf16(cs[n])|;
            && from < mid <= fromLim && units[from..mid] == Utf16(cs[n]) && units[mid..fromLim] == All16(cs[n + 1..])
    ensures All8(cs[..n + 1]) == All8(cs[..n]) + Utf8(cs[n])
  {
    hide All8;
    hide All16;
    hide Utf8;
    hide Utf16;
    EmptyText(cs[n..]);
    NextChar(cs, n);
    var size := |Utf16(cs[n])|;
    assert units[from..from + size] == units[from..fromLim][..size];
    assert units[from + size..fromLim] == units[from..fromLim][size..];
  }

  /** The UTF-16 to UTF-8 converter: as many characters as fit, stopping between characters. */
  method ToUtf8(units: seq<Unit>, fromP: nat, fromLim: nat, to: array<Byte>, toP: nat, toLim: nat, ghost cs: seq<Char>)
    returns (from: nat, toEnd: nat, ghost n: nat)
    requires fromP <= fromLim <= |units| && toP <= toLim <= to.Length
    requires units[fromP..fromLim] == All16(cs)
    modifies to
    ensures n <= |cs| && fromP <= from <= fromLim && toP <= toEnd <= toLim
    ensures units[from..fromLim] == All16(cs[n..])
    ensures to[..toEnd] == old(to[..toP]) + All8(cs[..n])
    ensures n < |cs| ==> toLim - toEnd < |Utf8(cs[n])|
    ensures to[toEnd..] == old(to[toEnd..])
  {
    hide All8;
    hide All16;
    hide Utf8;
    hide Utf16;
    from, toEnd, n := fromP, toP, 0;
    assert cs[0..] == cs;
    EmptyText(cs[..0]);
    assert to[..toP] == old(to[..toP]) + All8(cs[..0]);
    while from != fromLim
      invariant n <= |cs| && fromP <= from <= fromLim && toP <= toEnd <= toLim
      invariant units[from..fromLim] == All16(cs[n..])
      invariant to[..toEnd] == old(to[..toP]) + All8(cs[..n])
      invariant to[toEnd..] == old(to[toEnd..])
      decreases fromLim - from
    {
      SplitUnits(units, from, fromLim, cs, n);
      ghost var before, after := to[..toEnd], to[toEnd..];
      var size := PutBytes(units, from, to, toEnd, toLim, cs[n]);
      if size == 0 {
        return;
      }
      assert to[toEnd + size..] == after[size..] == old(to[toEnd..])[size..] == old(to[toEnd + size..]);
      assert before + Utf8(cs[n]) == old(to[..toP]) + (All8(cs[..n]) + Utf8(cs[n]));
      toEnd := toEnd + size;
      UnitCase(cs[n]);
      assert units[from] == units[from..from + |Utf16(cs[n])|][0];
      from := from + if 0xd8 <= units[from] / 0x100 < 0xdc then 2 else 1;
      n := n + 1;
    }
    EmptyText(cs[n..]);
  }

  // ----- the round trip -----

  /** Converts all of a text through output buffers of any sizes with room for a character. */
  method ToUtf16InPieces(enc: Encoding, text: seq<Byte>, room: nat -> nat,
                         ghost cs: seq<Char>) returns (units: seq<Unit>)
    requires text == All8(cs) && forall i :: room(i) >= 2
    ensures units == All16(cs)
  {
    hide All8;
    hide All16;
    hide Utf16;
    units := [];
    var from, i := 0, 0;
    ghost var done := 0;
    assert cs[0..] == cs && text[0..] == text;
    EmptyText(cs[..0]);
    while from != |text|
      invariant from <= |text| && done <= |cs|
      invariant text[from..] == All8(cs[done..]) && units == All16(cs[..done])
      decreases |text| - from
    {
      var to := new Unit[room(i)](_ => 0);
      assert text[from..] == text[from..|text|];
      var next, toEnd, n := ToUtf16(enc, text, from, |text|, to, 0, to.Length, cs[done..]);
      EmptyText(cs[done..]);
      EmptyText(cs[done..][..n]);
      Dropped(cs, done, n);
      AllSplits(cs, done, n);
      assert n > 0;
      Shorter(cs, done, n);
      units := units + to[..toEnd];
      from, done, i := next, done + n, i + 1;
    }
    EmptyText(cs[done..]);
    assert cs[..done] == cs;
  }

  lemma {:induction false} Dropped(cs: seq<Char>, done: nat, n: nat)
    requires done + n <= |cs|
    ensures |cs[done..]| == |cs| - done
    ensures cs[done..][n..] == cs[done + n..]
    ensures done + n < |cs| ==> cs[done..][n] == cs[done + n]
  {
  }

  lemma {:induction false} AllSplits(cs: seq<Char>, done: nat, n: nat)
    requires done + n <= |cs|
    ensures All16(cs[..done]) + All16(cs[done..][..n]) == All16(cs[..done + n])
    ensures All8(cs[..done]) + All8(cs[done..][..n]) == All8(cs[..done + n])
  {
    assert cs[..done] + cs[done..][..n] == cs[..done + n];
    All16Appends(cs[..done], cs[done..][..n]);
    All8Appends(cs[..done], cs[done..][..n]);
  }

  lemma {:induction false} Shorter(cs: seq<Char>, done: nat, n: nat)
    requires done + n <= |cs| && n > 0
    ensures |All8(cs[done + n..])| < |All8(cs[done..])|
    ensures |All16(cs[done + n..])| < |All16(cs[done..])|
  {
    hide All8;
    hide All16;
    assert cs[done..] == cs[done..done + n] + cs[done + n..];
    All8Appends(cs[done..done + n], cs[done + n..]);
    All16Appends(cs[done..done + n], cs[done + n..]);
    EmptyText(cs[done..done + n]);
  }

  /** The same for the converter back. */
  method ToUtf8InPieces(units: seq<Unit>, room: nat -> nat, ghost cs: seq<Char>) returns (text: seq<Byte>)
    requires units == All16(cs) && forall i :: room(i) >= 4
    ensures text == All8(cs)
  {
    hide All8;
    hide All16;
    hide Utf8;
    text := [];
    var from, i := 0, 0;
    ghost var done := 0;
    assert cs[0..] == cs && units[0..] == units;
    EmptyText(cs[..0]);
    while from != |units|
      invariant from <= |units| && done <= |cs|
      invariant units[from..] == All16(cs[done..]) && text == All8(cs[..done])
      decreases |units| - from
    {
      var to := new Byte[room(i)](_ => 0);
      assert units[from..] == units[from..|units|];
      var next, toEnd, n := ToUtf8(units, from, |units|, to, 0, to.Length, cs[done..]);
      EmptyText(cs[done..]);
      EmptyText(cs[done..][..n]);
      Dropped(cs, done, n);
      AllSplits(cs, done, n);
      assert n > 0;
      Shorter(cs, done, n);
      text := text + to[..toEnd];
      from, done, i := next, done + n, i + 1;
    }
    EmptyText(cs[done..]);
    assert cs[..done] == cs;
  }

  /** The characters of a text the scanners accept. */
  function Decoded(enc: Encoding, text: seq<Byte>): (r: (bool, seq<Char>))
    decreases |text|
  {
    if |text| == 0 then (true, [])
    else
      var n := Width(TypeOf(enc, text[0]));
      if n <= |text| && ValidChar(enc, text[..n]) then
        AcceptedIsEncoded(enc, text[..n]);
        var rest := Decoded(enc, text[n..]);
        (rest.0, [Value(text[..n])] + rest.1)
      else
        (false, [])
  }

  /** A text is accepted exactly when it encodes a sequence of characters: the decoded one. */
  lemma {:induction false} AcceptedExactly(enc: Encoding, text: seq<Byte>, cs: seq<Char>)
    ensures text == All8(cs) <==> Decoded(enc, text) == (true, cs)
  {
    if text == All8(cs) {
      EncodedDecodes(enc, cs);
    }
    if Decoded(enc, text) == (true, cs) {
      DecodedEncodes(enc, text);
    }
  }

  lemma {:induction false} EncodedDecodes(enc: Encoding, cs: seq<Char>)
    ensures Decoded(enc, All8(cs)) == (true, cs)
    decreases |cs|
  {
    hide Utf8;
    hide ValidChar;
    hide Value;
    hide TypeOf;
    if |cs| > 0 {
      var text, n := All8(cs), |Utf8(cs[0])|;
      assert text[..n] == Utf8(cs[0]) && text[n..] == All8(cs[1..]);
      assert text[0] == Utf8(cs[0])[0];
      LeadsByLength(enc, cs[0]);
      EncodedIsAccepted(enc, cs[0]);
      EncodedDecodes(enc, cs[1..]);
      assert [cs[0]] + cs[1..] == cs;
    }
  }

  lemma {:induction false} DecodedEncodes(enc: Encoding, text: seq<Byte>)
    requires Decoded(enc, text).0
    ensures All8(Decoded(enc, text).1) == text
    decreases |text|
  {
    hide Utf8;
    hide ValidChar;
    hide Value;
    hide TypeOf;
    if |text| > 0 {
      var n := Width(TypeOf(enc, text[0]));
      var cs := Decoded(enc, text).1;
      AcceptedIsEncoded(enc, text[..n]);
      assert cs[1..] == Decoded(enc, text[n..]).1;
      DecodedEncodes(enc, text[n..]);
      assert text == text[..n] + text[n..];
    }
  }

  /**
   * The round trip: a text the scanners accept comes back unchanged, whatever the sizes of the
   * buffers on the way, as long as each has room for one character.
   */
  method RoundTrip(enc: Encoding, text: seq<Byte>, room16: nat -> nat, room8: nat -> nat) returns (back: seq<Byte>)
    requires Decoded(enc, text).0
    requires (forall i :: room16(i) >= 2) && (forall i :: room8(i) >= 4)
    ensures back == text
  {
    ghost var cs := Decoded(enc, text).1;
    AcceptedExactly(enc, text, cs);
    var units := ToUtf16InPieces(enc, text, room16, cs);
    back := ToUtf8InPieces(units, room8, cs);
  }
}
