/** Bytes, their types and the characters they begin, as the UTF-8 encoding tables give them. */
module Bytes {

  type Byte = b: int | 0 <= b < 256

  /** The byte types the scanners tell apart; everything else is `Other`. */
  datatype ByteType =
    | NonXml | Malform | Trail | Lead2 | Lead3 | Lead4
    | Lt | Amp | Rsqb | Lsqb | Cr | Lf | S | Gt | Quot | Apos | Equals
    | Quest | Excl | Sol | Semi | Num | NmStrt | Hex | Digit | Name | Minus | Colon | Other

  /**
   * What distinguishes one UTF-8 table from another: whether colons are special (namespace
   * processing), whether carriage returns are plain space (text that was already read once), and
   * the classification of multi-byte name characters, whose tables are a parameter of the model.
   */
  datatype Encoding = Encoding(ns: bool, internal: bool, startsName: seq<Byte> -> bool, inName: seq<Byte> -> bool)

  function TypeOf(enc: Encoding, b: Byte): ByteType {
    if b < 0x80 then AsciiType(enc, b)
    else if b < 0xc0 then Trail
    else if b < 0xe0 then Lead2
    else if b < 0xf0 then Lead3
    else if b < 0xf5 then Lead4
    else if b < 0xfe then NonXml
    else Malform
  }

  function AsciiType(enc: Encoding, b: Byte): ByteType
    requires b < 0x80
  {
    if b < 0x20 then
      if b == 0x09 then S
      else if b == 0x0a then Lf
      else if b == 0x0d then (if enc.internal then S else Cr)
      else NonXml
    else if b < 0x30 then
      if b == 0x20 then S
      else if b == 0x21 then Excl
      else if b == 0x22 then Quot
      else if b == 0x23 then Num
      else if b == 0x26 then Amp
      else if b == 0x27 then Apos
      else if b == 0x2d then Minus
      else if b == 0x2e then Name
      else if b == 0x2f then Sol
      else Other
    else if b < 0x40 then
      if b < 0x3a then Digit
      else if b == 0x3a then (if enc.ns then Colon else NmStrt)
      else if b == 0x3b then Semi
      else if b == 0x3c then Lt
      else if b == 0x3d then Equals
      else if b == 0x3e then Gt
      else Quest
    else if b < 0x60 then
      if b == 0x40 then Other
      else if b < 0x47 then Hex
      else if b < 0x5b || b == 0x5f then NmStrt
      else if b == 0x5b then Lsqb
      else if b == 0x5d then Rsqb
      else Other
    else
      if b == 0x60 then Other
      else if b < 0x67 then Hex
      else if b < 0x7b then NmStrt
      else Other
  }

  predicate IsSpace(t: ByteType) {
    t.S? || t.Cr? || t.Lf?
  }

  predicate IsLead(t: ByteType) {
    t.Lead2? || t.Lead3? || t.Lead4?
  }

  /** The number of bytes of a character that begins with a byte of this type. */
  function Width(t: ByteType): nat {
    if t.Lead2? then 2 else if t.Lead3? then 3 else if t.Lead4? then 4 else 1
  }

  // ----- multi-byte characters -----

  predicate IsTrail(b: Byte) {
    0x80 <= b < 0xc0
  }

  /** The two-byte sequences the scanners refuse. */
  predicate Invalid2(p: seq<Byte>)
    requires |p| == 2
  {
    p[0] < 0xc2 || p[1] < 0x80 || p[1] > 0xbf
  }

  predicate Invalid3(p: seq<Byte>)
    requires |p| == 3
  {
    || p[2] < 0x80
    || (if p[0] == 0xef && p[1] == 0xbf then p[2] > 0xbd else p[2] > 0xbf)
    || (if p[0] == 0xe0 then
          p[1] < 0xa0 || p[1] > 0xbf
        else
          p[1] < 0x80 || (if p[0] == 0xed then p[1] > 0x9f else p[1] > 0xbf))
  }

  predicate Invalid4(p: seq<Byte>)
    requires |p| == 4
  {
    || p[3] < 0x80 || p[3] > 0xbf
    || p[2] < 0x80 || p[2] > 0xbf
    || (if p[0] == 0xf0 then
          p[1] < 0x90 || p[1] > 0xbf
        else
          p[1] < 0x80 || (if p[0] == 0xf4 then p[1] > 0x8f else p[1] > 0xbf))
  }

  predicate InvalidChar(p: seq<Byte>)
    requires 2 <= |p| <= 4
  {
    if |p| == 2 then Invalid2(p) else if |p| == 3 then Invalid3(p) else Invalid4(p)
  }

  predicate StartsName(enc: Encoding, p: seq<Byte>) {
    |p| < 4 && enc.startsName(p)
  }

  predicate InName(enc: Encoding, p: seq<Byte>) {
    |p| < 4 && enc.inName(p)
  }
}
