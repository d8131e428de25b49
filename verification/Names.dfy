/** Names and white space on bytes, as the productions of XML 1.0 have them, and what the byte types
    of the encoding tables make of them (asciitab.h, utf8tab.h and the CHECK_NAME cases). */
module Names {
  import opened Bytes
  import opened MarkupMachine

  /** The number of bytes that the first byte of a character announces. */
  function LeadLength(b: Byte): (n: nat)
    ensures 1 <= n <= 4
  {
    if b < 0xc0 then 1 else if b < 0xe0 then 2 else if b < 0xf0 then 3 else if b < 0xf5 then 4 else 1
  }

  predicate IsLetter(b: Byte) {
    0x41 <= b <= 0x5a || 0x61 <= b <= 0x7a
  }

  predicate IsDecimal(b: Byte) {
    0x30 <= b <= 0x39
  }

  /** A character that may begin a name: a letter, '_', ':' where colons are not special, or one from the table. */
  predicate StartChar(enc: Encoding, c: seq<Byte>) {
    || (|c| == 1 && (IsLetter(c[0]) || c[0] == 0x5f || (!enc.ns && c[0] == 0x3a)))
    || (2 <= |c| <= 3 && enc.startsName(c))
  }

  /** A character of a name: also a digit, '-' and '.'. */
  predicate NameChar(enc: Encoding, c: seq<Byte>) {
    || (|c| == 1 && (IsLetter(c[0]) || c[0] == 0x5f || (!enc.ns && c[0] == 0x3a) || IsDecimal(c[0]) || c[0] in {0x2d, 0x2e}))
    || (2 <= |c| <= 3 && enc.inName(c))
  }

  predicate NameChars(enc: Encoding, s: seq<Byte>)
    decreases |s|
  {
    |s| == 0 ||
    (LeadLength(s[0]) <= |s| && NameChar(enc, s[..LeadLength(s[0])]) && NameChars(enc, s[LeadLength(s[0])..]))
  }

  /** A name without a special colon. */
  predicate IsName(enc: Encoding, s: seq<Byte>) {
    && |s| > 0 && LeadLength(s[0]) <= |s|
    && StartChar(enc, s[..LeadLength(s[0])]) && NameChars(enc, s[LeadLength(s[0])..])
  }

  /** A name that may have a prefix, where colons are special. */
  predicate IsQName(enc: Encoding, prefix: seq<Byte>, local: seq<Byte>) {
    IsName(enc, local) && (prefix == [] || (enc.ns && IsName(enc, prefix)))
  }

  function QName(prefix: seq<Byte>, local: seq<Byte>): seq<Byte> {
    if prefix == [] then local else prefix + [0x3a] + local
  }

  /** White space (production 3). */
  predicate IsBlank(b: Byte) {
    b == 0x20 || b == 0x09 || b == 0x0d || b == 0x0a
  }

  predicate Blanks(s: seq<Byte>) {
    forall i | 0 <= i < |s| :: IsBlank(s[i])
  }

  /** What cannot be part of any text: control characters, and bytes that begin no character. */
  predicate IsIllegal(b: Byte) {
    (b < 0x20 && !IsBlank(b)) || 0x80 <= b < 0xc0 || b >= 0xf5
  }

  // ----- the byte types -----

  lemma {:induction false} TypesOfMarkup(enc: Encoding, b: Byte)
    ensures TypeOf(enc, b).Lt? <==> b == 0x3c
    ensures TypeOf(enc, b).Gt? <==> b == 0x3e
    ensures TypeOf(enc, b).Amp? <==> b == 0x26
    ensures TypeOf(enc, b).Semi? <==> b == 0x3b
    ensures TypeOf(enc, b).Num? <==> b == 0x23
    ensures TypeOf(enc, b).Excl? <==> b == 0x21
    ensures TypeOf(enc, b).Quest? <==> b == 0x3f
    ensures TypeOf(enc, b).Sol? <==> b == 0x2f
    ensures TypeOf(enc, b).Lsqb? <==> b == 0x5b
    ensures TypeOf(enc, b).Rsqb? <==> b == 0x5d
    ensures TypeOf(enc, b).Equals? <==> b == 0x3d
    ensures TypeOf(enc, b).Quot? <==> b == 0x22
    ensures TypeOf(enc, b).Apos? <==> b == 0x27
    ensures TypeOf(enc, b).Minus? <==> b == 0x2d
    ensures TypeOf(enc, b).Colon? <==> enc.ns && b == 0x3a
    ensures IsSpace(TypeOf(enc, b)) <==> IsBlank(b)
  {
  }

  lemma {:induction false} TypesOfCharacters(enc: Encoding, b: Byte)
    ensures Width(TypeOf(enc, b)) == LeadLength(b)
    ensures IsLead(TypeOf(enc, b)) <==> LeadLength(b) > 1
    ensures TypeOf(enc, b).NonXml? || TypeOf(enc, b).Malform? || TypeOf(enc, b).Trail? <==> IsIllegal(b)
    ensures TypeOf(enc, b).Digit? <==> IsDecimal(b)
    ensures TypeOf(enc, b).Digit? || TypeOf(enc, b).Hex? <==> IsDecimal(b) || 0x41 <= b <= 0x46 || 0x61 <= b <= 0x66
  {
  }

  /** One character of a name. */
  lemma {:induction false} NameCharIsChecked(enc: Encoding, text: seq<Byte>, ptr: nat)
    requires ptr < |text|
    ensures var n := LeadLength(text[ptr]);
            && (ptr + n <= |text| ==>
                  && (CheckName(enc, text, ptr).Go? <==> NameChar(enc, text[ptr..ptr + n]))
                  && (CheckNmstrt(enc, text, ptr).Go? <==> StartChar(enc, text[ptr..ptr + n])))
            && (CheckName(enc, text, ptr).Go? ==> ptr + n <= |text| && CheckName(enc, text, ptr).next == ptr + n)
            && (CheckNmstrt(enc, text, ptr).Go? ==> ptr + n <= |text| && CheckNmstrt(enc, text, ptr).next == ptr + n)
  {
    var n := LeadLength(text[ptr]);
    if ptr + n <= |text| {
      var c := text[ptr..ptr + n];
      assert |c| == n && c[0] == text[ptr];
    }
  }

  /** A byte that belongs to no name stops both checks without an error. */
  lemma {:induction false} NotInName(enc: Encoding, text: seq<Byte>, ptr: nat)
    requires ptr < |text| && text[ptr] < 0x80 && !NameChar(enc, [text[ptr]])
    ensures CheckName(enc, text, ptr).NoMatch? && CheckNmstrt(enc, text, ptr).NoMatch?
  {
  }

  /** One more character in front. */
  lemma {:induction false} NameGrows(enc: Encoding, c: seq<Byte>, s: seq<Byte>)
    requires |c| > 0 && |c| == LeadLength(c[0])
    ensures NameChars(enc, c + s) <==> NameChar(enc, c) && NameChars(enc, s)
    ensures IsName(enc, c + s) <==> StartChar(enc, c) && NameChars(enc, s)
  {
    var t := c + s;
    assert t[0] == c[0] && t[..|c|] == c && t[|c|..] == s;
  }
}
