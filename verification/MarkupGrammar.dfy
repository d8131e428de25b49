/** The markup that the scanners accept, as productions on bytes: comments, processing instructions,
    tags with their attributes, and references.  Every production is accepted, and nothing else is. */
module MarkupGrammar {
  import opened Bytes
  import opened MarkupMachine
  import opened Names

  // ----- productions -----

  /** One character of a text. */
  predicate Legal(c: seq<Byte>) {
    || (|c| == 1 && c[0] < 0x80 && !IsIllegal(c[0]))
    || (2 <= |c| <= 4 && |c| == LeadLength(c[0]) && !InvalidChar(c))
  }

  /** The body of a comment (production 15): no "--" in it, and no '-' at its end. */
  predicate CommentChars(b: seq<Byte>)
    decreases |b|
  {
    |b| == 0 ||
    var n := LeadLength(b[0]);
    && n <= |b| && Legal(b[..n])
    && (b[0] == 0x2d ==> |b| > 1 && b[1] != 0x2d)
    && CommentChars(b[n..])
  }

  /** The body of a processing instruction (production 16): no "?>" in it. */
  predicate PiChars(b: seq<Byte>)
    decreases |b|
  {
    |b| == 0 ||
    var n := LeadLength(b[0]);
    && n <= |b| && Legal(b[..n])
    && (b[0] == 0x3f && |b| > 1 ==> b[1] != 0x3e)
    && PiChars(b[n..])
  }

  /** The three letters, in any case, that are reserved. */
  predicate IsReserved(target: seq<Byte>) {
    |target| == 3 && target[0] in {0x78, 0x58} && target[1] in {0x6d, 0x4d} && target[2] in {0x6c, 0x4c}
  }

  const XML: seq<Byte> := [0x78, 0x6d, 0x6c]

  const COMMENT_OPEN: seq<Byte> := [0x21, 0x2d, 0x2d]
  const COMMENT_CLOSE: seq<Byte> := [0x2d, 0x2d, 0x3e]

  lemma {:induction false} Part(text: seq<Byte>, from: nat, end: nat, i: nat, j: nat)
    requires from <= end <= |text| && i <= j <= end - from
    ensures text[from..end][i..j] == text[from + i..from + j]
    ensures forall k | 0 <= k < end - from :: text[from..end][k] == text[from + k]
  {
    var a, b := text[from..end][i..j], text[from + i..from + j];
    assert |a| == |b| && forall k | 0 <= k < |a| :: a[k] == b[k];
  }

  // ----- text and blanks -----

  lemma {:induction false} CharIsChecked(enc: Encoding, text: seq<Byte>, ptr: nat)
    requires ptr < |text|
    ensures var n, a := LeadLength(text[ptr]), CheckChar(enc, text, ptr);
            if ptr + n <= |text| && Legal(text[ptr..ptr + n]) then (if n == 1 then a.NoMatch? else a == Go(ptr + n))
            else a.Stop? && !a.result.Token?
  {
    TypesOfCharacters(enc, text[ptr]);
    hide InvalidChar;
    var n := LeadLength(text[ptr]);
    if ptr + n <= |text| {
      var c := text[ptr..ptr + n];
      assert |c| == n && c[0] == text[ptr];
    }
  }

  /** Places where blanks are skipped. */
  predicate SkipsBlanks(s: State) {
    s.EndGap? || s.StartGap? || s.AttGap? || s.AttBeforeEquals? || s.AttAfterEquals?
  }

  lemma {:induction false} OneBlank(enc: Encoding, s: State, text: seq<Byte>, ptr: nat)
    requires SkipsBlanks(s) && ptr < |text| && IsBlank(text[ptr])
    ensures Scan(enc, s, text, ptr) == Scan(enc, s, text, ptr + 1)
  {
    hide Scan;
    ScanStep(enc, s, text, ptr);
    TypesOfMarkup(enc, text[ptr]);
    NotInName(enc, text, ptr);
    hide TypeOf;
    hide CheckNmstrt;
  }

  lemma {:induction false} BlanksAreSkipped(enc: Encoding, s: State, text: seq<Byte>, ptr: nat, end: nat)
    requires SkipsBlanks(s) && ptr <= end <= |text| && Blanks(text[ptr..end])
    ensures Scan(enc, s, text, ptr) == Scan(enc, s, text, end)
    decreases end - ptr
  {
    hide Scan;
    if ptr < end {
      assert text[ptr] == text[ptr..end][0];
      OneBlank(enc, s, text, ptr);
      assert text[ptr..end][1..] == text[ptr + 1..end];
      BlanksAreSkipped(enc, s, text, ptr + 1, end);
    }
  }

  /** All blanks from here on. */
  function BlanksEnd(text: seq<Byte>, ptr: nat): (end: nat)
    requires ptr <= |text|
    ensures ptr <= end <= |text| && Blanks(text[ptr..end]) && (end < |text| ==> !IsBlank(text[end]))
    decreases |text| - ptr
  {
    if ptr < |text| && IsBlank(text[ptr]) then
      var end := BlanksEnd(text, ptr + 1);
      assert text[ptr..end] == [text[ptr]] + text[ptr + 1..end];
      end
    else
      assert text[ptr..ptr] == [];
      ptr
  }

  // ----- names -----

  /** Places inside a name. */
  predicate InsideName(s: State) {
    s.StartName? || s.AttName? || s.RefName? || s.PiName? || s.EndName?
  }

  lemma {:induction false} OneNameChar(enc: Encoding, s: State, text: seq<Byte>, ptr: nat)
    requires InsideName(s) && ptr < |text| && Placed(s, ptr)
    requires ptr + LeadLength(text[ptr]) <= |text| && NameChar(enc, text[ptr..ptr + LeadLength(text[ptr])])
    ensures Scan(enc, s, text, ptr) == Scan(enc, s, text, ptr + LeadLength(text[ptr]))
  {
    hide Scan;
    hide CheckName;
    NameCharIsChecked(enc, text, ptr);
    ScanStep(enc, s, text, ptr);
    hide TypeOf;
  }

  lemma {:induction false} NameCharsAreSkipped(enc: Encoding, s: State, text: seq<Byte>, ptr: nat, end: nat)
    requires InsideName(s) && ptr <= end <= |text| && Placed(s, ptr) && NameChars(enc, text[ptr..end])
    ensures Scan(enc, s, text, ptr) == Scan(enc, s, text, end)
    decreases end - ptr
  {
    hide Scan;
    if ptr < end {
      var n := LeadLength(text[ptr]);
      assert text[ptr] == text[ptr..end][0];
      assert text[ptr..end][..n] == text[ptr..ptr + n] && text[ptr..end][n..] == text[ptr + n..end];
      OneNameChar(enc, s, text, ptr);
      NameCharsAreSkipped(enc, s, text, ptr + n, end);
    }
  }

  /** All characters of a name from here on. */
  function NameEnds(enc: Encoding, text: seq<Byte>, ptr: nat): (end: nat)
    requires ptr <= |text|
    ensures ptr <= end <= |text|
    decreases |text| - ptr
  {
    if ptr < |text| && ptr + LeadLength(text[ptr]) <= |text| && NameChar(enc, text[ptr..ptr + LeadLength(text[ptr])]) then
      NameEnds(enc, text, ptr + LeadLength(text[ptr]))
    else ptr
  }

  lemma {:induction false} NameEndsIs(enc: Encoding, text: seq<Byte>, ptr: nat)
    requires ptr <= |text|
    ensures var end := NameEnds(enc, text, ptr);
            && NameChars(enc, text[ptr..end])
            && (end < |text| ==> !CheckName(enc, text, end).Go?)
    decreases |text| - ptr
  {
    hide NameChar;
    hide CheckName;
    hide CheckNmstrt;
    hide StartChar;
    var end := NameEnds(enc, text, ptr);
    if ptr < |text| {
      NameCharIsChecked(enc, text, ptr);
    }
    if ptr < end {
      var n := LeadLength(text[ptr]);
      NameEndsIs(enc, text, ptr + n);
      assert text[ptr..end] == text[ptr..ptr + n] + text[ptr + n..end];
      NameGrows(enc, text[ptr..ptr + n], text[ptr + n..end]);
    }
  }

  /** A name is its first character and the others. */
  lemma {:induction false} NameIsWhole(enc: Encoding, text: seq<Byte>, first: nat, ptr: nat, end: nat)
    requires first < ptr <= end <= |text| && ptr == first + LeadLength(text[first])
    requires StartChar(enc, text[first..ptr]) && NameChars(enc, text[ptr..end])
    ensures IsName(enc, text[first..end])
  {
    assert text[first..end] == text[first..ptr] + text[ptr..end];
    NameGrows(enc, text[first..ptr], text[ptr..end]);
  }

  lemma {:induction false} NameBegins(enc: Encoding, text: seq<Byte>, first: nat, end: nat)
    requires first <= end <= |text| && IsName(enc, text[first..end])
    ensures first < end
    ensures var ptr := first + LeadLength(text[first]);
            ptr <= end && StartChar(enc, text[first..ptr]) && NameChars(enc, text[ptr..end])
            && CheckNmstrt(enc, text, first) == Go(ptr)
  {
    var name := text[first..end];
    assert name[0] == text[first];
    var n := LeadLength(name[0]);
    assert name[..n] == text[first..first + n] && name[n..] == text[first + n..end];
    NameCharIsChecked(enc, text, first);
  }

  // ----- comments -----

  /** One step inside the body of a comment, behind a '-' or not. */
  lemma {:induction false} CommentStep(enc: Encoding, dash: bool, text: seq<Byte>, ptr: nat)
    requires ptr < |text| && !(dash && text[ptr] == 0x2d)
    ensures var s, n := if dash then CommentDash else CommentBody, LeadLength(text[ptr]);
            if ptr + n <= |text| && Legal(text[ptr..ptr + n]) then
              Scan(enc, s, text, ptr) == Scan(enc, if text[ptr] == 0x2d then CommentDash else CommentBody, text, ptr + n)
            else
              !Scan(enc, s, text, ptr).Token?
  {
    hide Scan;
    hide CheckChar;
    hide Legal;
    CharIsChecked(enc, text, ptr);
    TypesOfMarkup(enc, text[ptr]);
    TypesOfCharacters(enc, text[ptr]);
    ScanStep(enc, if dash then CommentDash else CommentBody, text, ptr);
    hide TypeOf;
  }

  lemma {:induction false} CommentEnds(enc: Encoding, text: seq<Byte>, ptr: nat)
    requires ptr <= |text|
    ensures ptr < |text| && text[ptr] == 0x2d ==> Scan(enc, CommentDash, text, ptr) == Scan(enc, CommentEnd, text, ptr + 1)
    ensures ptr < |text| && text[ptr] == 0x3e ==> Scan(enc, CommentEnd, text, ptr) == Token(Comment, ptr + 1)
    ensures Scan(enc, CommentEnd, text, ptr).Token? ==> ptr < |text| && text[ptr] == 0x3e
  {
    hide Scan;
    ScanStep(enc, CommentDash, text, ptr);
    ScanStep(enc, CommentEnd, text, ptr);
    hide CheckChar;
    hide TypeOf;
  }

  /** The body of a comment, up to its closing. */
  lemma {:induction false} BodyIsScanned(enc: Encoding, dash: bool, text: seq<Byte>, ptr: nat, end: nat)
    requires ptr <= end && end + 3 <= |text| && text[end..end + 3] == COMMENT_CLOSE && CommentChars(text[ptr..end])
    requires dash ==> ptr < end && text[ptr] != 0x2d
    ensures Scan(enc, if dash then CommentDash else CommentBody, text, ptr) == Token(Comment, end + 3)
    decreases end - ptr
  {
    hide Scan;
    if ptr == end {
      CommentCloses(enc, text, ptr);
    } else {
      var n := CommentShrinks(text, ptr, end);
      hide Legal;
      hide CommentChars;
      CommentStep(enc, dash, text, ptr);
      BodyIsScanned(enc, text[ptr] == 0x2d, text, ptr + n, end);
    }
  }

  lemma {:induction false} CommentCloses(enc: Encoding, text: seq<Byte>, ptr: nat)
    requires ptr + 3 <= |text| && text[ptr..ptr + 3] == COMMENT_CLOSE
    ensures Scan(enc, CommentBody, text, ptr) == Token(Comment, ptr + 3)
  {
    hide Scan;
    var close := text[ptr..ptr + 3];
    assert text[ptr] == close[0] && text[ptr + 1] == close[1] && text[ptr + 2] == close[2];
    DashIsLegal(text, ptr);
    hide Legal;
    CommentStep(enc, false, text, ptr);
    CommentEnds(enc, text, ptr + 1);
    CommentEnds(enc, text, ptr + 2);
  }

  lemma {:induction false} CommentShrinks(text: seq<Byte>, ptr: nat, end: nat) returns (n: nat)
    requires ptr < end <= |text| && CommentChars(text[ptr..end])
    ensures 1 <= n == LeadLength(text[ptr]) && ptr + n <= end && Legal(text[ptr..ptr + n])
    ensures CommentChars(text[ptr + n..end]) && (text[ptr] == 0x2d ==> ptr + 1 < end && text[ptr + 1] != 0x2d)
  {
    hide Legal;
    n := LeadLength(text[ptr]);
    var b := text[ptr..end];
    assert b[0] == text[ptr] && (n <= |b| ==> b[..n] == text[ptr..ptr + n] && b[n..] == text[ptr + n..end]);
    assert |b| > 1 ==> b[1] == text[ptr + 1];
  }

  lemma {:induction false} DashIsLegal(text: seq<Byte>, ptr: nat)
    requires ptr < |text| && text[ptr] == 0x2d
    ensures LeadLength(text[ptr]) == 1 && Legal(text[ptr..ptr + 1])
  {
    assert text[ptr..ptr + 1] == [0x2d];
  }

  /** A comment that is accepted has a good body. */
  lemma {:induction false} BodyIsGood(enc: Encoding, dash: bool, text: seq<Byte>, ptr: nat)
    requires ptr <= |text| && Scan(enc, if dash then CommentDash else CommentBody, text, ptr).Token?
    requires !(dash && ptr < |text| && text[ptr] == 0x2d)
    ensures var r := Scan(enc, if dash then CommentDash else CommentBody, text, ptr);
            && r.kind.Comment? && ptr + 3 <= r.next <= |text| && text[r.next - 3..r.next] == COMMENT_CLOSE
            && CommentChars(text[ptr..r.next - 3]) && (dash ==> ptr < r.next - 3)
    decreases |text| - ptr
  {
    hide Scan;
    hide Legal;
    ScanStep(enc, if dash then CommentDash else CommentBody, text, ptr);
    if ptr < |text| {
      CommentStep(enc, dash, text, ptr);
      var n := LeadLength(text[ptr]);
      var rest := ptr + n;
      if text[ptr] == 0x2d && rest < |text| && text[rest] == 0x2d {
        ClosingIsGood(enc, text, ptr);
      } else {
        hide CommentChars;
        BodyIsGood(enc, text[ptr] == 0x2d, text, rest);
        var end := Scan(enc, if dash then CommentDash else CommentBody, text, ptr).next - 3;
        CommentGrows(text, ptr, end);
      }
    }
  }

  lemma {:induction false} ClosingIsGood(enc: Encoding, text: seq<Byte>, ptr: nat)
    requires ptr + 1 < |text| && text[ptr] == text[ptr + 1] == 0x2d && Scan(enc, CommentDash, text, ptr + 1).Token?
    ensures Scan(enc, CommentDash, text, ptr + 1) == Token(Comment, ptr + 3)
    ensures ptr + 3 <= |text| && text[ptr..ptr + 3] == COMMENT_CLOSE && CommentChars(text[ptr..ptr])
  {
    hide Scan;
    CommentEnds(enc, text, ptr + 1);
    CommentEnds(enc, text, ptr + 2);
    assert text[ptr..ptr] == [];
  }

  lemma {:induction false} CommentGrows(text: seq<Byte>, ptr: nat, end: nat)
    requires ptr < end <= |text|
    requires var n := LeadLength(text[ptr]);
             ptr + n <= end && Legal(text[ptr..ptr + n]) && CommentChars(text[ptr + n..end])
             && (text[ptr] == 0x2d ==> ptr + 1 < end && text[ptr + 1] != 0x2d)
    ensures CommentChars(text[ptr..end])
  {
    var n, b := LeadLength(text[ptr]), text[ptr..end];
    assert b[0] == text[ptr] && b[..n] == text[ptr..ptr + n] && b[n..] == text[ptr + n..end];
    assert |b| > 1 ==> b[1] == text[ptr + 1];
  }

  // ----- processing instructions -----

  /** One step inside the body of an instruction, behind a '?' or not. */
  lemma {:induction false} PiStep(enc: Encoding, xml: bool, quest: bool, text: seq<Byte>, ptr: nat)
    requires ptr < |text|
    ensures var s, n := if quest then PiBodyQuest(xml) else PiBody(xml), LeadLength(text[ptr]);
            if quest && text[ptr] == 0x3e then
              Scan(enc, s, text, ptr) == Token(if xml then XmlDecl else PI, ptr + 1)
            else if ptr + n <= |text| && Legal(text[ptr..ptr + n]) then
              Scan(enc, s, text, ptr) ==
              Scan(enc, if text[ptr] == 0x3f then PiBodyQuest(xml) else PiBody(xml), text, ptr + n)
            else
              !Scan(enc, s, text, ptr).Token?
  {
    hide Scan;
    hide CheckChar;
    hide Legal;
    CharIsChecked(enc, text, ptr);
    TypesOfMarkup(enc, text[ptr]);
    TypesOfCharacters(enc, text[ptr]);
    ScanStep(enc, if quest then PiBodyQuest(xml) else PiBody(xml), text, ptr);
    hide TypeOf;
  }

  lemma {:induction false} PiBodyIsScanned(enc: Encoding, xml: bool, quest: bool, text: seq<Byte>, ptr: nat, end: nat)
    requires ptr <= end && end + 2 <= |text| && text[end] == 0x3f && text[end + 1] == 0x3e && PiChars(text[ptr..end])
    requires quest ==> text[ptr] != 0x3e
    ensures Scan(enc, if quest then PiBodyQuest(xml) else PiBody(xml), text, ptr) == Token(if xml then XmlDecl else PI, end + 2)
    decreases end - ptr
  {
    hide Scan;
    if ptr == end {
      QuestIsLegal(text, ptr);
      hide Legal;
      PiStep(enc, xml, quest, text, ptr);
      PiStep(enc, xml, true, text, ptr + 1);
    } else {
      var n := PiShrinks(text, ptr, end);
      hide Legal;
      hide PiChars;
      PiStep(enc, xml, quest, text, ptr);
      PiBodyIsScanned(enc, xml, text[ptr] == 0x3f, text, ptr + n, end);
    }
  }

  lemma {:induction false} QuestIsLegal(text: seq<Byte>, ptr: nat)
    requires ptr < |text| && text[ptr] == 0x3f
    ensures LeadLength(text[ptr]) == 1 && Legal(text[ptr..ptr + 1])
  {
    assert text[ptr..ptr + 1] == [0x3f];
  }

  lemma {:induction false} PiShrinks(text: seq<Byte>, ptr: nat, end: nat) returns (n: nat)
    requires ptr < end <= |text| && PiChars(text[ptr..end])
    ensures 1 <= n == LeadLength(text[ptr]) && ptr + n <= end && Legal(text[ptr..ptr + n])
    ensures PiChars(text[ptr + n..end]) && (text[ptr] == 0x3f && ptr + 1 < end ==> text[ptr + 1] != 0x3e)
  {
    hide Legal;
    n := LeadLength(text[ptr]);
    var b := text[ptr..end];
    assert b[0] == text[ptr] && (n <= |b| ==> b[..n] == text[ptr..ptr + n] && b[n..] == text[ptr + n..end]);
    assert |b| > 1 ==> b[1] == text[ptr + 1];
  }

  lemma {:induction false} PiBodyIsGood(enc: Encoding, xml: bool, quest: bool, text: seq<Byte>, ptr: nat)
    requires ptr <= |text| && Scan(enc, if quest then PiBodyQuest(xml) else PiBody(xml), text, ptr).Token?
    requires !(quest && ptr < |text| && text[ptr] == 0x3e)
    ensures var r := Scan(enc, if quest then PiBodyQuest(xml) else PiBody(xml), text, ptr);
            && r.kind == (if xml then XmlDecl else PI) && ptr + 2 <= r.next <= |text|
            && text[r.next - 2] == 0x3f && text[r.next - 1] == 0x3e && PiChars(text[ptr..r.next - 2])
    decreases |text| - ptr
  {
    hide Scan;
    hide Legal;
    hide PiChars;
    ScanStep(enc, if quest then PiBodyQuest(xml) else PiBody(xml), text, ptr);
    if ptr < |text| {
      PiStep(enc, xml, quest, text, ptr);
      var rest := ptr + LeadLength(text[ptr]);
      if text[ptr] == 0x3f && rest < |text| && text[rest] == 0x3e {
        PiStep(enc, xml, true, text, rest);
        NoPiChars(text, ptr);
      } else {
        PiBodyIsGood(enc, xml, text[ptr] == 0x3f, text, rest);
        PiGrows(text, ptr, Scan(enc, if quest then PiBodyQuest(xml) else PiBody(xml), text, ptr).next - 2);
      }
    }
  }

  lemma {:induction false} NoPiChars(text: seq<Byte>, ptr: nat)
    requires ptr <= |text|
    ensures PiChars(text[ptr..ptr])
  {
  }

  lemma {:induction false} PiGrows(text: seq<Byte>, ptr: nat, end: nat)
    requires ptr < end <= |text|
    requires var n := LeadLength(text[ptr]);
             ptr + n <= end && Legal(text[ptr..ptr + n]) && PiChars(text[ptr + n..end])
             && (text[ptr] == 0x3f && ptr + 1 < end ==> text[ptr + 1] != 0x3e)
    ensures PiChars(text[ptr..end])
  {
    var n, b := LeadLength(text[ptr]), text[ptr..end];
    assert b[0] == text[ptr] && b[..n] == text[ptr..ptr + n] && b[n..] == text[ptr + n..end];
    assert |b| > 1 ==> b[1] == text[ptr + 1];
  }

  // ----- references -----

  predicate IsHexDigit(b: Byte) {
    IsDecimal(b) || 0x41 <= b <= 0x46 || 0x61 <= b <= 0x66
  }

  predicate AllDigits(hex: bool, s: seq<Byte>) {
    forall i | 0 <= i < |s| :: if hex then IsHexDigit(s[i]) else IsDecimal(s[i])
  }

  /** A reference behind its '&': a name, or '#' and digits, or "#x" and hexadecimal digits; and ';'. */
  predicate IsNameRef(enc: Encoding, r: seq<Byte>) {
    |r| >= 2 && r[|r| - 1] == 0x3b && IsName(enc, r[..|r| - 1])
  }

  predicate IsNumberRef(r: seq<Byte>) {
    && |r| >= 3 && r[|r| - 1] == 0x3b && r[0] == 0x23
    && (|| AllDigits(false, r[1..|r| - 1])
        || (r[1] == 0x78 && |r| >= 4 && AllDigits(true, r[2..|r| - 1])))
  }

  predicate IsRef(enc: Encoding, kind: Kind, r: seq<Byte>) {
    (kind == EntityRef && IsNameRef(enc, r)) || (kind == CharRef && IsNumberRef(r))
  }

  /** What a complete reference leads to. */
  function AfterRef(enc: Encoding, c: Container, kind: Kind, text: seq<Byte>, next: nat): Result
    requires next <= |text|
  {
    if c.InContent? then Token(kind, next) else Scan(enc, AttValue(c.quot), text, next)
  }

  lemma {:induction false} DigitStep(enc: Encoding, c: Container, hex: bool, text: seq<Byte>, ptr: nat)
    requires ptr < |text|
    ensures var s := if hex then HexDigits(c) else Digits(c);
            if (if hex then IsHexDigit(text[ptr]) else IsDecimal(text[ptr])) then
              Scan(enc, s, text, ptr) == Scan(enc, s, text, ptr + 1)
            else if text[ptr] == 0x3b then
              Scan(enc, s, text, ptr) == AfterRef(enc, c, CharRef, text, ptr + 1)
            else
              !Scan(enc, s, text, ptr).Token?
  {
    hide Scan;
    ScanStep(enc, if hex then HexDigits(c) else Digits(c), text, ptr);
    TypesOfCharacters(enc, text[ptr]);
    TypesOfMarkup(enc, text[ptr]);
    hide TypeOf;
  }

  lemma {:induction false} DigitsAreScanned(enc: Encoding, c: Container, hex: bool, text: seq<Byte>, ptr: nat, end: nat)
    requires ptr <= end < |text| && AllDigits(hex, text[ptr..end]) && text[end] == 0x3b
    ensures Scan(enc, if hex then HexDigits(c) else Digits(c), text, ptr) == AfterRef(enc, c, CharRef, text, end + 1)
    decreases end - ptr
  {
    hide Scan;
    DigitStep(enc, c, hex, text, ptr);
    if ptr < end {
      assert text[ptr] == text[ptr..end][0] && text[ptr..end][1..] == text[ptr + 1..end];
      DigitsAreScanned(enc, c, hex, text, ptr + 1, end);
    }
  }

  lemma {:induction false} DigitsAreGood(enc: Encoding, c: Container, hex: bool, text: seq<Byte>, ptr: nat)
    returns (end: nat)
    requires ptr <= |text| && Scan(enc, if hex then HexDigits(c) else Digits(c), text, ptr).Token?
    ensures ptr <= end < |text| && AllDigits(hex, text[ptr..end]) && text[end] == 0x3b
    ensures Scan(enc, if hex then HexDigits(c) else Digits(c), text, ptr) == AfterRef(enc, c, CharRef, text, end + 1)
    decreases |text| - ptr
  {
    hide Scan;
    ScanStep(enc, if hex then HexDigits(c) else Digits(c), text, ptr);
    end := ptr;
    if ptr < |text| {
      DigitStep(enc, c, hex, text, ptr);
      if text[ptr] != 0x3b {
        end := DigitsAreGood(enc, c, hex, text, ptr + 1);
        assert text[ptr..end] == [text[ptr]] + text[ptr + 1..end];
      }
    }
  }

  /** What follows '&'. */
  lemma {:induction false} RefStep(enc: Encoding, c: Container, text: seq<Byte>, ptr: nat)
    requires ptr < |text|
    ensures var n := LeadLength(text[ptr]);
            if ptr + n <= |text| && StartChar(enc, text[ptr..ptr + n]) then
              Scan(enc, Ref(c), text, ptr) == Scan(enc, RefName(c), text, ptr + n)
            else if text[ptr] == 0x23 then
              Scan(enc, Ref(c), text, ptr) == Scan(enc, NumRef(c), text, ptr + 1)
            else
              !Scan(enc, Ref(c), text, ptr).Token?
  {
    hide Scan;
    hide CheckNmstrt;
    hide StartChar;
    ScanStep(enc, Ref(c), text, ptr);
    NameCharIsChecked(enc, text, ptr);
    CharSettled(enc, text, [], ptr);
    TypesOfMarkup(enc, text[ptr]);
    hide TypeOf;
    if text[ptr] == 0x23 {
      NotInName(enc, text, ptr);
    }
  }

  /** What follows "&#". */
  lemma {:induction false} NumberStep(enc: Encoding, c: Container, text: seq<Byte>, ptr: nat)
    requires ptr < |text|
    ensures if text[ptr] == 0x78 then
              Scan(enc, NumRef(c), text, ptr) == Scan(enc, HexRef(c), text, ptr + 1)
            else if IsDecimal(text[ptr]) then
              Scan(enc, NumRef(c), text, ptr) == Scan(enc, Digits(c), text, ptr + 1)
            else
              !Scan(enc, NumRef(c), text, ptr).Token?
    ensures if IsHexDigit(text[ptr]) then
              Scan(enc, HexRef(c), text, ptr) == Scan(enc, HexDigits(c), text, ptr + 1)
            else
              !Scan(enc, HexRef(c), text, ptr).Token?
  {
    hide Scan;
    ScanStep(enc, NumRef(c), text, ptr);
    ScanStep(enc, HexRef(c), text, ptr);
    TypesOfCharacters(enc, text[ptr]);
    hide TypeOf;
  }

  lemma {:induction false} NameRefIsScanned(enc: Encoding, c: Container, text: seq<Byte>, ptr: nat, end: nat)
    requires ptr <= end < |text| && text[end] == 0x3b && IsName(enc, text[ptr..end])
    ensures Scan(enc, Ref(c), text, ptr) == AfterRef(enc, c, EntityRef, text, end + 1)
  {
    hide Scan;
    NameBegins(enc, text, ptr, end);
    RefStep(enc, c, text, ptr);
    NameCharsAreSkipped(enc, RefName(c), text, ptr + LeadLength(text[ptr]), end);
    SemicolonEnds(enc, c, text, end);
  }

  lemma {:induction false} SemicolonEnds(enc: Encoding, c: Container, text: seq<Byte>, ptr: nat)
    requires ptr < |text| && !CheckName(enc, text, ptr).Go?
    ensures if text[ptr] == 0x3b then Scan(enc, RefName(c), text, ptr) == AfterRef(enc, c, EntityRef, text, ptr + 1)
            else !Scan(enc, RefName(c), text, ptr).Token?
  {
    hide Scan;
    hide CheckName;
    ScanStep(enc, RefName(c), text, ptr);
    CharSettled(enc, text, [], ptr);
    TypesOfMarkup(enc, text[ptr]);
    hide TypeOf;
    if text[ptr] == 0x3b {
      NotInName(enc, text, ptr);
    }
  }

  lemma {:induction false} NumberRefIsScanned(enc: Encoding, c: Container, text: seq<Byte>, ptr: nat, end: nat)
    requires ptr <= end < |text| && IsNumberRef(text[ptr..end + 1])
    ensures Scan(enc, Ref(c), text, ptr) == AfterRef(enc, c, CharRef, text, end + 1)
  {
    hide Scan;
    hide IsNumberRef;
    NumberParts(text, ptr, end);
    HashBeginsNoName(enc, text, ptr);
    hide StartChar;
    RefStep(enc, c, text, ptr);
    NumberStep(enc, c, text, ptr + 1);
    if text[ptr + 1] == 0x78 {
      NumberStep(enc, c, text, ptr + 2);
      DigitsAreScanned(enc, c, true, text, ptr + 3, end);
    } else {
      DigitsAreScanned(enc, c, false, text, ptr + 2, end);
    }
  }

  lemma {:induction false} NumberParts(text: seq<Byte>, ptr: nat, end: nat)
    requires ptr <= end < |text| && IsNumberRef(text[ptr..end + 1])
    ensures ptr + 2 <= end && text[ptr] == 0x23 && text[end] == 0x3b
    ensures if text[ptr + 1] == 0x78 then ptr + 3 <= end && IsHexDigit(text[ptr + 2]) && AllDigits(true, text[ptr + 3..end])
            else IsDecimal(text[ptr + 1]) && AllDigits(false, text[ptr + 2..end])
  {
    var r := text[ptr..end + 1];
    Part(text, ptr, end + 1, 1, |r| - 1);
    Part(text, ptr, end + 1, 2, |r| - 1);
    assert r[0] == text[ptr] && r[1] == text[ptr + 1] && r[|r| - 1] == text[end];
    var d := r[1..|r| - 1];
    assert d[0] == r[1];
    if r[1] == 0x78 {
      assert !AllDigits(false, d);
      var h := text[ptr + 2..end];
      assert h[0] == text[ptr + 2] && h[1..] == text[ptr + 3..end];
    } else {
      assert d[1..] == text[ptr + 2..end];
    }
  }

  lemma {:induction false} HashBeginsNoName(enc: Encoding, text: seq<Byte>, ptr: nat)
    requires ptr < |text| && text[ptr] == 0x23
    ensures LeadLength(text[ptr]) == 1 && !StartChar(enc, text[ptr..ptr + 1])
  {
  }

  /** A reference is scanned to its end. */
  lemma {:induction false} RefIsScanned(enc: Encoding, c: Container, kind: Kind, text: seq<Byte>, ptr: nat, next: nat)
    requires ptr <= next <= |text| && IsRef(enc, kind, text[ptr..next])
    ensures Scan(enc, Ref(c), text, ptr) == AfterRef(enc, c, kind, text, next)
  {
    hide Scan;
    hide IsName;
    hide IsNumberRef;
    var r := text[ptr..next];
    if kind == EntityRef && IsNameRef(enc, r) {
      assert r[|r| - 1] == text[next - 1] && r[..|r| - 1] == text[ptr..next - 1];
      NameRefIsScanned(enc, c, text, ptr, next - 1);
    } else {
      NumberIsLong(r);
      NumberRefIsScanned(enc, c, text, ptr, next - 1);
    }
  }

  lemma {:induction false} NumberIsLong(r: seq<Byte>)
    requires IsNumberRef(r)
    ensures |r| >= 3
  {
  }

  /** Whatever the scanner takes for a reference is one. */
  lemma {:induction false} RefIsGood(enc: Encoding, c: Container, text: seq<Byte>, ptr: nat) returns (kind: Kind, next: nat)
    requires ptr <= |text| && Scan(enc, Ref(c), text, ptr).Token?
    ensures ptr < next <= |text| && IsRef(enc, kind, text[ptr..next])
    ensures Scan(enc, Ref(c), text, ptr) == AfterRef(enc, c, kind, text, next)
  {
    hide Scan;
    hide IsNumberRef;
    hide IsNameRef;
    hide StartChar;
    ScanStep(enc, Ref(c), text, ptr);
    kind, next := EntityRef, ptr;
    if ptr < |text| {
      RefStep(enc, c, text, ptr);
      var n := LeadLength(text[ptr]);
      if ptr + n <= |text| && StartChar(enc, text[ptr..ptr + n]) {
        next := NameRefIsGood(enc, c, text, ptr);
      } else {
        next := NumberIsGood(enc, c, text, ptr + 1);
        kind := CharRef;
        HashMakesRef(text, ptr, next);
      }
    }
  }

  lemma {:induction false} NameRefIs(enc: Encoding, text: seq<Byte>, ptr: nat, end: nat)
    requires ptr < end < |text| && text[end] == 0x3b && IsName(enc, text[ptr..end])
    ensures IsNameRef(enc, text[ptr..end + 1])
  {
    hide IsName;
    var r := text[ptr..end + 1];
    Part(text, ptr, end + 1, 0, end - ptr);
    assert r[..|r| - 1] == r[0..end - ptr] && r[|r| - 1] == text[end];
  }

  lemma {:induction false} NameRefIsGood(enc: Encoding, c: Container, text: seq<Byte>, ptr: nat) returns (next: nat)
    requires ptr < |text| && ptr + LeadLength(text[ptr]) <= |text|
    requires StartChar(enc, text[ptr..ptr + LeadLength(text[ptr])])
    requires Scan(enc, RefName(c), text, ptr + LeadLength(text[ptr])).Token?
    ensures ptr < next <= |text| && IsNameRef(enc, text[ptr..next])
    ensures Scan(enc, RefName(c), text, ptr + LeadLength(text[ptr])) == AfterRef(enc, c, EntityRef, text, next)
  {
    hide Scan;
    hide IsName;
    hide StartChar;
    hide NameEnds;
    hide IsNameRef;
    var from := ptr + LeadLength(text[ptr]);
    var end := NameEnds(enc, text, from);
    NameEndsIs(enc, text, from);
    NameCharsAreSkipped(enc, RefName(c), text, from, end);
    ScanStep(enc, RefName(c), text, end);
    next := end + 1;
    if end < |text| {
      SemicolonEnds(enc, c, text, end);
      NameIsWhole(enc, text, ptr, from, end);
      NameRefIs(enc, text, ptr, end);
    }
  }

  /** "#" in front of digits. */
  predicate IsNumber(r: seq<Byte>) {
    && |r| >= 2 && r[|r| - 1] == 0x3b
    && (AllDigits(false, r[..|r| - 1]) || (r[0] == 0x78 && |r| >= 3 && AllDigits(true, r[1..|r| - 1])))
  }

  lemma {:induction false} HashMakesRef(text: seq<Byte>, ptr: nat, next: nat)
    requires ptr + 1 < next <= |text| && text[ptr] == 0x23 && IsNumber(text[ptr + 1..next])
    ensures IsNumberRef(text[ptr..next])
  {
    var r, d := text[ptr..next], text[ptr + 1..next];
    assert r[1..] == d && r[1..|r| - 1] == d[..|d| - 1] && r[2..|r| - 1] == d[1..|d| - 1];
  }

  lemma {:induction false} HexIsGood(enc: Encoding, c: Container, text: seq<Byte>, ptr: nat) returns (next: nat)
    requires ptr < |text| && text[ptr] == 0x78 && Scan(enc, HexRef(c), text, ptr + 1).Token?
    ensures ptr < next <= |text| && IsNumber(text[ptr..next])
    ensures Scan(enc, HexRef(c), text, ptr + 1) == AfterRef(enc, c, CharRef, text, next)
  {
    hide Scan;
    hide IsNumber;
    ScanStep(enc, HexRef(c), text, ptr + 1);
    next := ptr;
    if ptr + 1 < |text| {
      NumberStep(enc, c, text, ptr + 1);
      var end := DigitsAreGood(enc, c, true, text, ptr + 2);
      next := end + 1;
      DigitsMakeNumber(true, text, ptr, end);
    }
  }

  lemma {:induction false} DecimalIsGood(enc: Encoding, c: Container, text: seq<Byte>, ptr: nat) returns (next: nat)
    requires ptr < |text| && IsDecimal(text[ptr]) && Scan(enc, Digits(c), text, ptr + 1).Token?
    ensures ptr < next <= |text| && IsNumber(text[ptr..next])
    ensures Scan(enc, Digits(c), text, ptr + 1) == AfterRef(enc, c, CharRef, text, next)
  {
    hide Scan;
    hide IsNumber;
    var end := DigitsAreGood(enc, c, false, text, ptr + 1);
    next := end + 1;
    DigitsMakeNumber(false, text, ptr, end);
  }

  lemma {:induction false} NumberIsGood(enc: Encoding, c: Container, text: seq<Byte>, ptr: nat) returns (next: nat)
    requires ptr <= |text| && Scan(enc, NumRef(c), text, ptr).Token?
    ensures ptr < next <= |text| && IsNumber(text[ptr..next])
    ensures Scan(enc, NumRef(c), text, ptr) == AfterRef(enc, c, CharRef, text, next)
  {
    hide Scan;
    hide IsNumber;
    ScanStep(enc, NumRef(c), text, ptr);
    next := ptr;
    if ptr < |text| {
      NumberStep(enc, c, text, ptr);
      if text[ptr] == 0x78 {
        next := HexIsGood(enc, c, text, ptr);
      } else {
        next := DecimalIsGood(enc, c, text, ptr);
      }
    }
  }

  lemma {:induction false} DigitsMakeNumber(hex: bool, text: seq<Byte>, ptr: nat, end: nat)
    requires ptr < end < |text| && text[end] == 0x3b
    requires if hex then text[ptr] == 0x78 && ptr + 1 < end && IsHexDigit(text[ptr + 1]) && AllDigits(true, text[ptr + 2..end])
             else IsDecimal(text[ptr]) && AllDigits(false, text[ptr + 1..end])
    ensures IsNumber(text[ptr..end + 1])
  {
    var r := text[ptr..end + 1];
    assert r[|r| - 1] == text[end] && r[0] == text[ptr];
    if hex {
      Part(text, ptr, end + 1, 1, |r| - 1);
      assert text[ptr + 1..end] == [text[ptr + 1]] + text[ptr + 2..end];
    } else {
      Part(text, ptr, end + 1, 0, |r| - 1);
      assert r[..|r| - 1] == r[0..|r| - 1];
      assert text[ptr..end] == [text[ptr]] + text[ptr + 1..end];
    }
  }

  // ----- attribute values -----

  function QuoteByte(quot: bool): Byte { if quot then 0x22 else 0x27 }

  /** A value (production 10): characters other than '<', '&' and its quote, and references. */
  ghost predicate ValueChars(enc: Encoding, quot: bool, v: seq<Byte>)
    decreases |v|
  {
    |v| == 0
    || (v[0] == 0x26 && exists n: nat, kind :: ValueRef(enc, v, n, kind) && ValueChars(enc, quot, v[n..]))
    || (PlainInValue(v, quot) && ValueChars(enc, quot, v[LeadLength(v[0])..]))
  }

  predicate ValueRef(enc: Encoding, v: seq<Byte>, n: nat, kind: Kind) {
    2 <= n <= |v| && IsRef(enc, kind, v[1..n])
  }

  predicate PlainInValue(v: seq<Byte>, quot: bool)
    requires |v| > 0
  {
    && v[0] != 0x26 && v[0] != 0x3c && v[0] != QuoteByte(quot)
    && LeadLength(v[0]) <= |v| && Legal(v[..LeadLength(v[0])])
  }

  lemma {:induction false} ValueStep(enc: Encoding, quot: bool, text: seq<Byte>, ptr: nat)
    requires ptr < |text|
    ensures var n, s := LeadLength(text[ptr]), AttValue(quot);
            if text[ptr] == QuoteByte(quot) then Scan(enc, s, text, ptr) == Scan(enc, AttClose, text, ptr + 1)
            else if text[ptr] == 0x26 then Scan(enc, s, text, ptr) == Scan(enc, Ref(InValue(quot)), text, ptr + 1)
            else if text[ptr] != 0x3c && ptr + n <= |text| && Legal(text[ptr..ptr + n]) then
              Scan(enc, s, text, ptr) == Scan(enc, s, text, ptr + n)
            else
              !Scan(enc, s, text, ptr).Token?
  {
    hide Scan;
    hide CheckChar;
    hide Legal;
    ScanStep(enc, AttValue(quot), text, ptr);
    CharIsChecked(enc, text, ptr);
    TypesOfMarkup(enc, text[ptr]);
    TypesOfCharacters(enc, text[ptr]);
    if text[ptr] == 0x26 {
      AsciiIsLegal(text, ptr);
    }
    hide TypeOf;
  }

  lemma {:induction false} AsciiIsLegal(text: seq<Byte>, ptr: nat)
    requires ptr < |text| && 0x20 <= text[ptr] < 0x80
    ensures LeadLength(text[ptr]) == 1 && Legal(text[ptr..ptr + 1])
  {
  }

  lemma {:induction false} ValueIsScanned(enc: Encoding, quot: bool, text: seq<Byte>, ptr: nat, end: nat)
    requires ptr <= end < |text| && ValueChars(enc, quot, text[ptr..end]) && text[end] == QuoteByte(quot)
    ensures Scan(enc, AttValue(quot), text, ptr) == Scan(enc, AttClose, text, end + 1)
    decreases end - ptr
  {
    hide Scan;
    hide Legal;
    hide IsRef;
    ValueStep(enc, quot, text, ptr);
    if ptr < end {
      hide ValueChars;
      if text[ptr] == 0x26 {
        var n, kind := RefShrinks(enc, quot, text, ptr, end);
        RefIsScanned(enc, InValue(quot), kind, text, ptr + 1, ptr + n);
        ValueIsScanned(enc, quot, text, ptr + n, end);
      } else {
        PlainShrinks(enc, quot, text, ptr, end);
        ValueIsScanned(enc, quot, text, ptr + LeadLength(text[ptr]), end);
      }
    }
  }

  lemma {:induction false} RefShrinks(enc: Encoding, quot: bool, text: seq<Byte>, ptr: nat, end: nat)
    returns (n: nat, kind: Kind)
    requires ptr < end <= |text| && ValueChars(enc, quot, text[ptr..end]) && text[ptr] == 0x26
    ensures 2 <= n <= end - ptr && IsRef(enc, kind, text[ptr + 1..ptr + n]) && ValueChars(enc, quot, text[ptr + n..end])
  {
    hide Legal;
    hide IsRef;
    var v := text[ptr..end];
    assert v[0] == 0x26;
    n, kind :| ValueRef(enc, v, n, kind) && ValueChars(enc, quot, v[n..]);
    Part(text, ptr, end, 1, n);
    Part(text, ptr, end, n, end - ptr);
    assert v[n..] == v[n..|v|];
  }

  lemma {:induction false} PlainShrinks(enc: Encoding, quot: bool, text: seq<Byte>, ptr: nat, end: nat)
    requires ptr < end <= |text| && ValueChars(enc, quot, text[ptr..end]) && text[ptr] != 0x26
    ensures text[ptr] != 0x3c && text[ptr] != QuoteByte(quot) && ptr + LeadLength(text[ptr]) <= end
    ensures var n := LeadLength(text[ptr]); Legal(text[ptr..ptr + n]) && ValueChars(enc, quot, text[ptr + n..end])
  {
    hide Legal;
    var v, n := text[ptr..end], LeadLength(text[ptr]);
    assert v[0] == text[ptr] && v[..n] == text[ptr..ptr + n] && v[n..] == text[ptr + n..end];
  }

  lemma {:induction false} ValueIsGood(enc: Encoding, quot: bool, text: seq<Byte>, ptr: nat) returns (end: nat)
    requires ptr <= |text| && Scan(enc, AttValue(quot), text, ptr).Token?
    ensures ptr <= end < |text| && ValueChars(enc, quot, text[ptr..end]) && text[end] == QuoteByte(quot)
    ensures Scan(enc, AttValue(quot), text, ptr) == Scan(enc, AttClose, text, end + 1)
    decreases |text| - ptr
  {
    hide Scan;
    hide Legal;
    hide IsRef;
    hide ValueChars;
    ScanStep(enc, AttValue(quot), text, ptr);
    end := ptr;
    if ptr < |text| {
      ValueStep(enc, quot, text, ptr);
      if text[ptr] == QuoteByte(quot) {
        EmptyValue(enc, quot);
        assert text[ptr..ptr] == [];
      } else if text[ptr] == 0x26 {
        var kind, next := RefIsGood(enc, InValue(quot), text, ptr + 1);
        end := ValueIsGood(enc, quot, text, next);
        ValueGrowsByRef(enc, quot, text, ptr, next, end, kind);
      } else {
        end := ValueIsGood(enc, quot, text, ptr + LeadLength(text[ptr]));
        ValueGrowsByChar(enc, quot, text, ptr, end);
      }
    }
  }

  lemma {:induction false} ValueGrowsByChar(enc: Encoding, quot: bool, text: seq<Byte>, ptr: nat, end: nat)
    requires ptr < |text| && ptr + LeadLength(text[ptr]) <= end < |text|
    requires text[ptr] != 0x26 && text[ptr] != 0x3c && text[ptr] != QuoteByte(quot)
    requires Legal(text[ptr..ptr + LeadLength(text[ptr])]) && ValueChars(enc, quot, text[ptr + LeadLength(text[ptr])..end])
    ensures ValueChars(enc, quot, text[ptr..end])
  {
    hide Legal;
    var v, n := text[ptr..end], LeadLength(text[ptr]);
    Part(text, ptr, end, 0, n);
    Part(text, ptr, end, n, end - ptr);
    assert v[0] == text[ptr] && v[..n] == v[0..n] && v[n..] == v[n..|v|];
  }

  lemma {:induction false} EmptyValue(enc: Encoding, quot: bool)
    ensures ValueChars(enc, quot, [])
  {
  }

  lemma {:induction false} ValueGrowsByRef(enc: Encoding, quot: bool, text: seq<Byte>, ptr: nat, next: nat, end: nat,
                                           kind: Kind)
    requires ptr + 1 < next <= end < |text| && text[ptr] == 0x26
    requires IsRef(enc, kind, text[ptr + 1..next]) && ValueChars(enc, quot, text[next..end])
    ensures ValueChars(enc, quot, text[ptr..end])
  {
    hide IsRef;
    var v, n := text[ptr..end], next - ptr;
    Part(text, ptr, end, 1, n);
    Part(text, ptr, end, n, end - ptr);
    assert v[0] == 0x26 && v[n..] == v[n..|v|];
    assert ValueRef(enc, v, n, kind);
  }
}
