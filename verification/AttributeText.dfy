/** What the characters and references of an attribute value contribute, on bytes (section 3.3.3 of
    XML 1.0): white space, character references, the five predefined entities, and declared ones. */
module AttributeText {
  import opened Bytes
  import opened Characters
  import opened MarkupMachine
  import opened AttributeTokens
  import opened AttributeValues
  import N = Names
  import C = CharRefs
  import T = AttributeTokens

  // ----- white space -----

  /** Each end of a line, tab and space becomes one space; CR LF is one end, but not in text already read once. */
  function Spaced(internal: bool, s: seq<Byte>): seq<Byte>
    decreases |s|
  {
    if |s| == 0 then []
    else if !internal && s[0] == 0x0d && |s| > 1 && s[1] == 0x0a then [0x20] + Spaced(internal, s[2..])
    else if N.IsBlank(s[0]) then [0x20] + Spaced(internal, s[1..])
    else [s[0]] + Spaced(internal, s[1..])
  }

  /** Neither '&' nor '<'. */
  predicate IsPlain(s: seq<Byte>) {
    forall i | 0 <= i < |s| :: s[i] != 0x26 && s[i] != 0x3c
  }

  predicate NoBlank(s: seq<Byte>) {
    forall i | 0 <= i < |s| :: !N.IsBlank(s[i])
  }

  lemma {:induction false} SpacedNoBlank(internal: bool, a: seq<Byte>, s: seq<Byte>)
    requires NoBlank(a)
    ensures Spaced(internal, a + s) == a + Spaced(internal, s)
    decreases |a|
  {
    if |a| > 0 {
      assert (a + s)[1..] == a[1..] + s;
      SpacedNoBlank(internal, a[1..], s);
    } else {
      assert a + s == s;
    }
  }

  /** A run of plain characters, up to a blank, a reference or the end. */
  lemma {:induction false} RunIsPlain(enc: Encoding, text: seq<Byte>, ptr: nat, end: nat)
    requires ptr <= end <= |text| && Proper(enc, text, ptr) && IsPlain(text[ptr..end]) && (end < |text| ==> text[end] == 0x26)
    ensures var r := PlainRun(enc, text, ptr);
            && r.Token? && ptr <= r.next <= end && NoBlank(text[ptr..r.next])
            && (r.next < end ==> N.IsBlank(text[r.next]))
    decreases end - ptr
  {
    if ptr == end {
      if ptr < |text| {
        N.TypesOfMarkup(enc, text[ptr]);
      }
    } else {
      N.TypesOfMarkup(enc, text[ptr]);
      hide TypeOf;
      hide Proper;
      assert text[ptr] == text[ptr..end][0];
      if !Breaks(TypeOf(enc, text[ptr])) {
        WholeChar(enc, text, ptr, end);
        var next := ptr + Width(TypeOf(enc, text[ptr]));
        LaterIsPlain(text, ptr, next, end);
        Widths(enc, text[ptr]);
        RunIsPlain(enc, text, next, end);
        CharIsNoBlank(enc, text, ptr);
        BlanksAppend(text, ptr, next, PlainRun(enc, text, next).next);
      }
    }
  }

  lemma {:induction false} BlanksAppend(text: seq<Byte>, a: nat, b: nat, c: nat)
    requires a <= b <= c <= |text| && NoBlank(text[a..b]) && NoBlank(text[b..c])
    ensures NoBlank(text[a..c])
  {
    assert text[a..c] == text[a..b] + text[b..c];
  }

  /** A character does not reach over the end of a plain part. */
  lemma {:induction false} WholeChar(enc: Encoding, text: seq<Byte>, ptr: nat, end: nat)
    requires ptr < end <= |text| && Proper(enc, text, ptr) && (end < |text| ==> text[end] == 0x26)
    requires text[ptr] != 0x26 && text[ptr] != 0x3c
    ensures var w := Width(TypeOf(enc, text[ptr])); ptr + w <= end && Proper(enc, text, ptr + w)
  {
    N.TypesOfMarkup(enc, text[ptr]);
    hide TypeOf;
    ProperNext(enc, text, ptr);
    var w := Width(TypeOf(enc, text[ptr]));
    if end < ptr + w {
      assert false;
    }
  }

  lemma {:induction false} CharIsNoBlank(enc: Encoding, text: seq<Byte>, ptr: nat)
    requires ptr < |text| && Proper(enc, text, ptr) && !Breaks(TypeOf(enc, text[ptr]))
    ensures ptr + Width(TypeOf(enc, text[ptr])) <= |text|
    ensures NoBlank(text[ptr..ptr + Width(TypeOf(enc, text[ptr]))])
  {
    N.TypesOfMarkup(enc, text[ptr]);
  }

  /** A value's plain part in front of a reference or of the end contributes its characters, blanks made spaces. */
  lemma {:induction false} PlainPart(dtd: Dtd, open: set<EntityName>, enc: Encoding, text: seq<Byte>, ptr: nat, end: nat)
    requires ptr <= end <= |text| && Proper(enc, text, ptr) && ProperDtd(dtd)
    requires IsPlain(text[ptr..end]) && (end < |text| ==> text[end] == 0x26)
    ensures Proper(enc, text, end)
    ensures Expansion(dtd, open, enc, text, ptr) ==
            Prepend(Spaced(enc.internal, text[ptr..end]), Expansion(dtd, open, enc, text, end))
    decreases end - ptr
  {
    hide Expansion;
    hide Proper;
    if ptr == end {
      assert text[ptr..end] == [];
    } else {
      hide Spaced;
      hide IsPlain;
      var next, bytes := PlainPiece(dtd, open, enc, text, ptr, end);
      LaterIsPlain(text, ptr, next, end);
      PlainPart(dtd, open, enc, text, next, end);
      PrependTwice(bytes, Spaced(enc.internal, text[next..end]), Expansion(dtd, open, enc, text, end));
    }
  }

  lemma {:induction false} LaterIsPlain(text: seq<Byte>, ptr: nat, next: nat, end: nat)
    requires ptr <= next <= end <= |text| && IsPlain(text[ptr..end])
    ensures IsPlain(text[next..end])
  {
    assert text[ptr..end][next - ptr..] == text[next..end];
  }

  lemma {:induction false} PrependTwice(a: seq<Byte>, b: seq<Byte>, o: Outcome)
    ensures Prepend(a, Prepend(b, o)) == Prepend(a + b, o)
  {
    assert a + (b + o.value) == a + b + o.value;
  }

  /** The first piece of a plain part. */
  lemma {:induction false} PlainPiece(dtd: Dtd, open: set<EntityName>, enc: Encoding, text: seq<Byte>, ptr: nat, end: nat)
    returns (next: nat, bytes: seq<Byte>)
    requires ptr < end <= |text| && Proper(enc, text, ptr) && ProperDtd(dtd)
    requires IsPlain(text[ptr..end]) && (end < |text| ==> text[end] == 0x26)
    ensures ptr < next <= end && Proper(enc, text, next)
    ensures Expansion(dtd, open, enc, text, ptr) == Prepend(bytes, Expansion(dtd, open, enc, text, next))
    ensures Spaced(enc.internal, text[ptr..end]) == bytes + Spaced(enc.internal, text[next..end])
  {
    hide Expansion;
    hide Proper;
    var part := text[ptr..end];
    assert part[0] == text[ptr];
    N.TypesOfMarkup(enc, text[ptr]);
    if N.IsBlank(text[ptr]) {
      next, bytes := if !enc.internal && text[ptr] == 0x0d && ptr + 1 < end && text[ptr + 1] == 0x0a then ptr + 2 else ptr + 1, [0x20];
      assert next > ptr + 1 ==> part[1] == text[ptr + 1];
      BlankPiece(dtd, enc, text, ptr, end);
      assert part[next - ptr..] == text[next..end];
    } else {
      RunIsPlain(enc, text, ptr, end);
      next := PlainRun(enc, text, ptr).next;
      bytes := text[ptr..next];
      RunPiece(dtd, enc, text, ptr);
      assert part == bytes + text[next..end];
      SpacedNoBlank(enc.internal, bytes, text[next..end]);
    }
    PieceAdvances(dtd, enc, text, ptr);
    ExpandsByPiece(dtd, open, enc, text, ptr, next, bytes);
  }

  lemma {:induction false} BlankPiece(dtd: Dtd, enc: Encoding, text: seq<Byte>, ptr: nat, end: nat)
    requires ptr < end <= |text| && Proper(enc, text, ptr) && N.IsBlank(text[ptr]) && (end < |text| ==> text[end] == 0x26)
    ensures PieceAt(dtd, enc, text, ptr) ==
            Space(if !enc.internal && text[ptr] == 0x0d && ptr + 1 < end && text[ptr + 1] == 0x0a then ptr + 2 else ptr + 1)
  {
    N.TypesOfMarkup(enc, text[ptr]);
    BlankTypes(enc, text[ptr]);
    if ptr + 1 < |text| {
      BlankTypes(enc, text[ptr + 1]);
    }
    hide TypeOf;
    hide Proper;
  }

  lemma {:induction false} BlankTypes(enc: Encoding, b: Byte)
    ensures TypeOf(enc, b).Lf? <==> b == 0x0a
    ensures TypeOf(enc, b).Cr? <==> b == 0x0d && !enc.internal
    ensures TypeOf(enc, b).S? <==> b == 0x20 || b == 0x09 || (b == 0x0d && enc.internal)
  {
  }

  lemma {:induction false} RunPiece(dtd: Dtd, enc: Encoding, text: seq<Byte>, ptr: nat)
    requires ptr < |text| && Proper(enc, text, ptr)
    requires text[ptr] != 0x26 && text[ptr] != 0x3c && !N.IsBlank(text[ptr]) && PlainRun(enc, text, ptr).Token?
    ensures var next := PlainRun(enc, text, ptr).next; PieceAt(dtd, enc, text, ptr) == Put(text[ptr..next], next)
  {
    N.TypesOfMarkup(enc, text[ptr]);
    BlankTypes(enc, text[ptr]);
    hide TypeOf;
    hide Proper;
  }

  lemma {:induction false} ExpandsByPiece(dtd: Dtd, open: set<EntityName>, enc: Encoding, text: seq<Byte>, ptr: nat,
                                          next: nat, bytes: seq<Byte>)
    requires ptr <= |text| && Proper(enc, text, ptr) && ProperDtd(dtd)
    requires PieceAt(dtd, enc, text, ptr) == Put(bytes, next) || (PieceAt(dtd, enc, text, ptr) == Space(next) && bytes == [0x20])
    ensures ptr < next <= |text| && Proper(enc, text, next)
    ensures Expansion(dtd, open, enc, text, ptr) == Prepend(bytes, Expansion(dtd, open, enc, text, next))
  {
    hide PieceAt;
    hide Proper;
    PieceAdvances(dtd, enc, text, ptr);
  }

  /**
   * The white-space rule: a value of complete characters without references and '<' is its
   * characters, with every end of a line, tab and space made one space.
   */
  lemma {:induction false} PlainValue(dtd: Dtd, open: set<EntityName>, enc: Encoding, text: seq<Byte>)
    requires Proper(enc, text, 0) && ProperDtd(dtd) && IsPlain(text)
    ensures Expansion(dtd, open, enc, text, 0) == Outcome(None, Spaced(enc.internal, text))
  {
    hide Proper;
    assert text[0..|text|] == text;
    PlainPart(dtd, open, enc, text, 0, |text|);
    NothingMore(dtd, open, enc, text);
    assert Spaced(enc.internal, text) + [] == Spaced(enc.internal, text);
  }

  lemma {:induction false} NothingMore(dtd: Dtd, open: set<EntityName>, enc: Encoding, text: seq<Byte>)
    requires ProperDtd(dtd)
    ensures Proper(enc, text, |text|) && Expansion(dtd, open, enc, text, |text|) == Outcome(None, [])
  {
  }

  /** A '<' is never part of a value. */
  lemma {:induction false} LessThanIsRefused(dtd: Dtd, open: set<EntityName>, enc: Encoding, text: seq<Byte>, ptr: nat)
    requires ptr < |text| && Proper(enc, text, ptr) && ProperDtd(dtd) && text[ptr] == 0x3c
    ensures Expansion(dtd, open, enc, text, ptr) == Outcome(InvalidToken, [])
  {
    N.TypesOfMarkup(enc, text[ptr]);
    hide TypeOf;
  }

  // ----- character references -----

  /** "&#" or "&#x", digits and ";". */
  function ReferenceTo(hex: bool, digits: seq<Byte>): seq<Byte> {
    (if hex then [0x26, 0x23, 0x78] else [0x26, 0x23]) + digits + [0x3b]
  }

  predicate AreDigits(hex: bool, digits: seq<Byte>) {
    |digits| > 0 && forall i | 0 <= i < |digits| :: C.IsDigit(digits[i], hex)
  }

  lemma {:induction false} DigitsAreScanned(enc: Encoding, hex: bool, text: seq<Byte>, ptr: nat, end: nat)
    requires ptr <= end < |text| && text[end] == 0x3b && forall i | ptr <= i < end :: C.IsDigit(text[i], hex)
    ensures Scan(enc, if hex then HexDigits(InContent) else Digits(InContent), text, ptr) == Token(CharRef, end + 1)
    decreases end - ptr
  {
    hide Scan;
    var s := if hex then HexDigits(InContent) else Digits(InContent);
    ScanStep(enc, s, text, ptr);
    N.TypesOfCharacters(enc, text[ptr]);
    N.TypesOfMarkup(enc, text[ptr]);
    hide TypeOf;
    if ptr < end {
      DigitsAreScanned(enc, hex, text, ptr + 1, end);
    }
  }

  lemma {:induction false} StandsAt(text: seq<Byte>, ptr: nat, part: seq<Byte>)
    requires ptr <= |text| && part <= text[ptr..]
    ensures ptr + |part| <= |text| && text[ptr..ptr + |part|] == part
    ensures forall i | 0 <= i < |part| :: text[ptr + i] == part[i]
  {
    assert text[ptr..][..|part|] == part;
    assert forall i | 0 <= i < |part| :: text[ptr + i] == text[ptr..][i];
  }

  lemma {:induction false} ReferenceBytes(hex: bool, text: seq<Byte>, ptr: nat, digits: seq<Byte>)
    requires |digits| > 0 && ptr <= |text| && ReferenceTo(hex, digits) <= text[ptr..]
    ensures var first, next := ptr + if hex then 3 else 2, ptr + |ReferenceTo(hex, digits)|;
            && next == first + |digits| + 1 <= |text| && text[first..next - 1] == digits
            && text[ptr] == 0x26 && text[ptr + 1] == 0x23 && text[next - 1] == 0x3b && (hex ==> text[ptr + 2] == 0x78)
            && (forall i | first <= i < next - 1 :: text[i] == digits[i - first])
  {
    var ref := ReferenceTo(hex, digits);
    StandsAt(text, ptr, ref);
    var n, first := |ref|, if hex then 3 else 2;
    assert ref[first..n - 1] == digits && ref[n - 1] == 0x3b;
    assert text[ptr + first..ptr + n - 1] == text[ptr..ptr + n][first..n - 1];
  }

  lemma {:induction false} ReferenceIsScanned(enc: Encoding, hex: bool, text: seq<Byte>, ptr: nat, digits: seq<Byte>)
    requires AreDigits(hex, digits) && ptr <= |text| && ReferenceTo(hex, digits) <= text[ptr..]
    ensures ptr < |text| && text[ptr] == 0x26
    ensures var next := ptr + |ReferenceTo(hex, digits)|;
            && Scan(enc, Ref(InContent), text, ptr + 1) == Token(CharRef, next)
            && C.IsCharRef(text, ptr, next) && C.IsHex(text, ptr) == hex
            && text[C.Start(text, ptr)..next - 1] == digits
  {
    hide Scan;
    hide TypeOf;
    var n, first := |ReferenceTo(hex, digits)|, if hex then 3 else 2;
    ReferenceBytes(hex, text, ptr, digits);
    NumberBegins(enc, text, ptr);
    if hex {
      HexBegins(enc, text, ptr);
      DigitsAreScanned(enc, true, text, ptr + 4, ptr + n - 1);
    } else {
      DecimalBegins(enc, text, ptr);
      DigitsAreScanned(enc, false, text, ptr + 3, ptr + n - 1);
    }
  }

  lemma {:induction false} NumberBegins(enc: Encoding, text: seq<Byte>, ptr: nat)
    requires ptr + 2 < |text| && text[ptr + 1] == 0x23
    ensures Scan(enc, Ref(InContent), text, ptr + 1) == Scan(enc, NumRef(InContent), text, ptr + 2)
  {
    hide Scan;
    ScanStep(enc, Ref(InContent), text, ptr + 1);
    N.TypesOfMarkup(enc, text[ptr + 1]);
    N.NotInName(enc, text, ptr + 1);
    hide TypeOf;
    hide CheckNmstrt;
  }

  lemma {:induction false} DecimalBegins(enc: Encoding, text: seq<Byte>, ptr: nat)
    requires ptr + 3 < |text| && N.IsDecimal(text[ptr + 2])
    ensures Scan(enc, NumRef(InContent), text, ptr + 2) == Scan(enc, Digits(InContent), text, ptr + 3)
  {
    hide Scan;
    ScanStep(enc, NumRef(InContent), text, ptr + 2);
    N.TypesOfCharacters(enc, text[ptr + 2]);
    hide TypeOf;
  }

  lemma {:induction false} HexBegins(enc: Encoding, text: seq<Byte>, ptr: nat)
    requires ptr + 4 < |text| && text[ptr + 2] == 0x78 && C.IsDigit(text[ptr + 3], true)
    ensures Scan(enc, NumRef(InContent), text, ptr + 2) == Scan(enc, HexDigits(InContent), text, ptr + 4)
  {
    hide Scan;
    ScanStep(enc, NumRef(InContent), text, ptr + 2);
    ScanStep(enc, HexRef(InContent), text, ptr + 3);
    N.TypesOfCharacters(enc, text[ptr + 3]);
    hide TypeOf;
  }

  /**
   * A character reference, wherever it stands, contributes the encoding of its character, and is an
   * error when its number is that of no XML character.
   */
  lemma {:induction false} CharReferenceMeans(dtd: Dtd, open: set<EntityName>, enc: Encoding, text: seq<Byte>, ptr: nat,
                                              hex: bool, digits: seq<Byte>)
    requires ptr <= |text| && Proper(enc, text, ptr) && ProperDtd(dtd)
    requires AreDigits(hex, digits) && ReferenceTo(hex, digits) <= text[ptr..]
    ensures forall i | 0 <= i < |digits| :: C.IsDigit(digits[i], true)
    ensures var n, next := C.Numeral(digits, if hex then 16 else 10), ptr + |ReferenceTo(hex, digits)|;
            if C.IsXmlChar(n) then
              && IsChar(n) && next <= |text| && Proper(enc, text, next)
              && Expansion(dtd, open, enc, text, ptr) == Prepend(Utf8(n), Expansion(dtd, open, enc, text, next))
            else
              Expansion(dtd, open, enc, text, ptr) == Outcome(BadCharRef, [])
  {
    hide Proper;
    hide Scan;
    hide Utf8;
    ReferenceIsScanned(enc, hex, text, ptr, digits);
    var n, next := C.Numeral(digits, if hex then 16 else 10), ptr + |ReferenceTo(hex, digits)|;
    N.TypesOfMarkup(enc, text[ptr]);
    hide TypeOf;
    hide ReferenceTo;
    assert C.NumberOf(text, ptr, next) == n;
    assert PieceAt(dtd, enc, text, ptr) == CharPiece(text, ptr, next);
    if C.IsXmlChar(n) {
      C.CheckIsChar(n);
      SpaceIsItself();
      ExpandsByPiece(dtd, open, enc, text, ptr, next, Utf8(n));
    }
  }

  lemma {:induction false} SpaceIsItself()
    ensures Utf8(0x20) == [0x20]
  {
  }

  // ----- entity references -----

  function EntityReference(name: seq<Byte>): seq<Byte> {
    [0x26] + name + [0x3b]
  }

  lemma {:induction false} RestOfName(enc: Encoding, text: seq<Byte>, ptr: nat, end: nat)
    requires ptr <= end < |text| && text[end] == 0x3b && N.NameChars(enc, text[ptr..end])
    ensures Scan(enc, RefName(InContent), text, ptr) == Token(EntityRef, end + 1)
    decreases end - ptr
  {
    hide Scan;
    ScanStep(enc, RefName(InContent), text, ptr);
    if ptr == end {
      N.TypesOfMarkup(enc, text[ptr]);
      N.NotInName(enc, text, ptr);
      hide TypeOf;
      hide CheckName;
    } else {
      hide CheckName;
      var n := N.LeadLength(text[ptr]);
      assert text[ptr] == text[ptr..end][0];
      assert text[ptr..end][..n] == text[ptr..ptr + n] && text[ptr..end][n..] == text[ptr + n..end];
      N.NameCharIsChecked(enc, text, ptr);
      RestOfName(enc, text, ptr + n, end);
    }
  }

  lemma {:induction false} NameIsScanned(enc: Encoding, text: seq<Byte>, ptr: nat, name: seq<Byte>)
    requires ptr <= |text| && EntityReference(name) <= text[ptr..] && N.IsName(enc, name)
    ensures ptr < |text| && text[ptr] == 0x26
    ensures var next := ptr + |name| + 2;
            && next <= |text| && Scan(enc, Ref(InContent), text, ptr + 1) == Token(EntityRef, next)
            && text[ptr + 1..next - 1] == name
  {
    var ref, end := EntityReference(name), ptr + 1 + |name|;
    StandsAt(text, ptr, ref);
    assert ref[1..1 + |name|] == name && ref[1 + |name|] == 0x3b;
    assert text[ptr + 1..end] == text[ptr..ptr + |ref|][1..1 + |name|];
    NameBegins(enc, text, ptr, end);
  }

  lemma {:induction false} NameBegins(enc: Encoding, text: seq<Byte>, ptr: nat, end: nat)
    requires ptr + 1 < end < |text| && text[end] == 0x3b && N.IsName(enc, text[ptr + 1..end])
    ensures Scan(enc, Ref(InContent), text, ptr + 1) == Token(EntityRef, end + 1)
  {
    hide Scan;
    hide CheckNmstrt;
    hide TypeOf;
    var name := text[ptr + 1..end];
    var n := N.LeadLength(text[ptr + 1]);
    assert text[ptr + 1] == name[0];
    assert name[..n] == text[ptr + 1..ptr + 1 + n] && name[n..] == text[ptr + 1 + n..end];
    N.NameCharIsChecked(enc, text, ptr + 1);
    ScanStep(enc, Ref(InContent), text, ptr + 1);
    RestOfName(enc, text, ptr + 1 + n, end);
  }

  /** The piece that a reference to an entity is. */
  lemma {:induction false} ReferencePiece(dtd: Dtd, enc: Encoding, text: seq<Byte>, ptr: nat, name: seq<Byte>)
    requires ptr <= |text| && Proper(enc, text, ptr) && EntityReference(name) <= text[ptr..] && N.IsName(enc, name)
    ensures PieceAt(dtd, enc, text, ptr) == EntityPiece(dtd, name, ptr + |name| + 2)
  {
    hide Proper;
    hide Scan;
    hide EntityPiece;
    NameIsScanned(enc, text, ptr, name);
    N.TypesOfMarkup(enc, text[ptr]);
    hide TypeOf;
  }

  /** The five predefined entities, by their letters. */
  function PredefinedName(c: Byte): seq<Byte> {
    if c == 0x3c then [0x6c, 0x74]
    else if c == 0x3e then [0x67, 0x74]
    else if c == 0x26 then [0x61, 0x6d, 0x70]
    else if c == 0x22 then [0x71, 0x75, 0x6f, 0x74]
    else [0x61, 0x70, 0x6f, 0x73]
  }

  lemma {:induction false} LettersAreNames(enc: Encoding, s: seq<Byte>)
    requires forall i | 0 <= i < |s| :: N.IsLetter(s[i])
    ensures N.NameChars(enc, s) && (|s| > 0 ==> N.IsName(enc, s))
    decreases |s|
  {
    if |s| > 0 {
      LettersAreNames(enc, s[1..]);
      assert s[..1] == [s[0]];
    }
  }

  lemma {:induction false} PredefinedIs(c: Byte)
    requires c in {0x3c, 0x3e, 0x26, 0x22, 0x27}
    ensures Predefined(PredefinedName(c)) == c && |PredefinedName(c)| > 0
    ensures forall i | 0 <= i < |PredefinedName(c)| :: N.IsLetter(PredefinedName(c)[i])
  {
  }

  /** &lt; &gt; &amp; &quot; and &apos; contribute their characters, whatever is declared or open. */
  lemma {:induction false} PredefinedMeans(dtd: Dtd, open: set<EntityName>, enc: Encoding, text: seq<Byte>, ptr: nat,
                                           c: Byte)
    requires ptr <= |text| && Proper(enc, text, ptr) && ProperDtd(dtd)
    requires c in {0x3c, 0x3e, 0x26, 0x22, 0x27} && EntityReference(PredefinedName(c)) <= text[ptr..]
    ensures var next := ptr + |PredefinedName(c)| + 2;
            && next <= |text| && Proper(enc, text, next)
            && Expansion(dtd, open, enc, text, ptr) == Prepend([c], Expansion(dtd, open, enc, text, next))
  {
    hide Proper;
    hide Expansion;
    hide EntityReference;
    hide PredefinedName;
    hide Predefined;
    hide PieceAt;
    PredefinedIs(c);
    LettersAreNames(enc, PredefinedName(c));
    ReferencePiece(dtd, enc, text, ptr, PredefinedName(c));
    ExpandsByPiece(dtd, open, enc, text, ptr, ptr + |PredefinedName(c)| + 2, [c]);
  }

  /** Any other name. */
  predicate IsOwnName(name: seq<Byte>) {
    forall c | c in {0x3c, 0x3e, 0x26, 0x22, 0x27} :: name != PredefinedName(c)
  }

  lemma {:induction false} OwnName(name: seq<Byte>)
    requires IsOwnName(name)
    ensures Predefined(name) == 0
  {
    assert name != PredefinedName(0x3c) && name != PredefinedName(0x3e) && name != PredefinedName(0x26);
    assert name != PredefinedName(0x22) && name != PredefinedName(0x27);
  }

  /** Why a reference in an attribute value is an error, in the order of the tests. */
  function ReferenceError(dtd: Dtd, open: set<EntityName>, name: EntityName): Error {
    if name !in dtd.entities then (if dtd.check then UndefinedEntity else None)
    else if !dtd.entities[name].isInternal && dtd.check then EntityDeclaredInPE
    else if name in open then RecursiveEntityRef
    else if dtd.entities[name].notation then BinaryEntityRef
    else if dtd.entities[name].text.Nothing? then ExternalEntityRef
    else None
  }

  /**
   * A reference to any other entity: an error, nothing when it may be undeclared, and otherwise what
   * its text expands end, while the entity is open.
   */
  lemma {:induction false} EntityReferenceMeans(dtd: Dtd, open: set<EntityName>, enc: Encoding, text: seq<Byte>,
                                                ptr: nat, name: EntityName)
    requires ptr <= |text| && Proper(enc, text, ptr) && ProperDtd(dtd)
    requires EntityReference(name) <= text[ptr..] && N.IsName(enc, name) && IsOwnName(name)
    ensures var error, e := ReferenceError(dtd, open, name), Expansion(dtd, open, enc, text, ptr);
            && (error != None ==> e == Outcome(error, []))
            && (error == None ==>
                  && ptr + |name| + 2 <= |text| && Proper(enc, text, ptr + |name| + 2)
                  && var rest := Expansion(dtd, open, enc, text, ptr + |name| + 2);
                  if name !in dtd.entities then e == rest
                  else
                    var inner := Expansion(dtd, open + {name}, dtd.internal, dtd.entities[name].text.value, 0);
                    e == if inner.error == None then Prepend(inner.value, rest) else inner)
  {
    hide Proper;
    OwnName(name);
    hide Predefined;
    hide EntityReference;
    ReferencePiece(dtd, enc, text, ptr, name);
    PieceAdvances(dtd, enc, text, ptr);
    hide PieceAt;
  }
}
