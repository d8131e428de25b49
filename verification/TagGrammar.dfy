/** Tags, as productions on bytes: a start tag is a name and attributes, an end tag a name; and the
    theorem that the scanners accept exactly the markup of the grammar (xmltok_impl.c, scanLt). */
module TagGrammar {
  import opened Bytes
  import opened MarkupMachine
  import opened Names
  import opened MarkupGrammar

  /** An attribute with the blanks around its parts (production 41). */
  datatype Att = Att(gap: seq<Byte>, prefix: seq<Byte>, local: seq<Byte>, before: seq<Byte>, after: seq<Byte>,
                     quot: bool, value: seq<Byte>)

  ghost predicate GoodAtt(enc: Encoding, a: Att) {
    && |a.gap| > 0 && Blanks(a.gap) && IsQName(enc, a.prefix, a.local) && Blanks(a.before) && Blanks(a.after)
    && ValueChars(enc, a.quot, a.value)
  }

  function AttText(a: Att): seq<Byte> {
    a.gap + (QName(a.prefix, a.local) + (a.before + ([0x3d] + (a.after +
    ([QuoteByte(a.quot)] + (a.value + [QuoteByte(a.quot)]))))))
  }

  function AttsText(atts: seq<Att>): seq<Byte> {
    if |atts| == 0 then [] else AttText(atts[0]) + AttsText(atts[1..])
  }

  /** What ends a start tag: '>', or "/>" when the element is empty. */
  function TagEnd(empty: bool): seq<Byte> {
    if empty then [0x2f, 0x3e] else [0x3e]
  }

  /** A start tag (productions 40 and 44). */
  datatype Tag = Tag(prefix: seq<Byte>, local: seq<Byte>, atts: seq<Att>, gap: seq<Byte>, empty: bool)

  ghost predicate GoodAtts(enc: Encoding, atts: seq<Att>) {
    forall i | 0 <= i < |atts| :: GoodAtt(enc, atts[i])
  }

  ghost predicate GoodTag(enc: Encoding, t: Tag) {
    IsQName(enc, t.prefix, t.local) && GoodAtts(enc, t.atts) && Blanks(t.gap)
  }

  /** The tag behind its '<'. */
  function TagText(t: Tag): seq<Byte> {
    QName(t.prefix, t.local) + (AttsText(t.atts) + (t.gap + TagEnd(t.empty)))
  }

  function TagKind(atts: bool, empty: bool): Kind {
    if empty then (if atts then EmptyElementWithAtts else EmptyElementNoAtts)
    else (if atts then StartTagWithAtts else StartTagNoAtts)
  }

  // ----- single steps -----

  /** Inside the name of the element, or of an attribute. */
  function NameState(att: bool, colon: bool): State { if att then AttName(colon) else StartName(colon) }

  function ColonState(att: bool): State { if att then AttColon else StartColon }

  /** Behind a name or a value. */
  function Behind(atts: bool, colon: bool): State { if atts then AttClose else StartName(colon) }

  function Gap(atts: bool): State { if atts then AttGap else StartGap }

  lemma {:induction false} ColonStep(enc: Encoding, att: bool, text: seq<Byte>, ptr: nat)
    requires ptr < |text| && enc.ns && text[ptr] == 0x3a
    ensures Scan(enc, NameState(att, false), text, ptr) == Scan(enc, ColonState(att), text, ptr + 1)
  {
    hide Scan;
    hide CheckName;
    ScanStep(enc, NameState(att, false), text, ptr);
    NotInName(enc, text, ptr);
    TypesOfMarkup(enc, text[ptr]);
    hide TypeOf;
  }

  lemma {:induction false} LocalStep(enc: Encoding, att: bool, text: seq<Byte>, ptr: nat)
    requires ptr < |text|
    ensures var n := LeadLength(text[ptr]);
            if ptr + n <= |text| && StartChar(enc, text[ptr..ptr + n]) then
              Scan(enc, ColonState(att), text, ptr) == Scan(enc, NameState(att, true), text, ptr + n)
            else !Scan(enc, ColonState(att), text, ptr).Token?
  {
    hide Scan;
    hide CheckNmstrt;
    hide StartChar;
    ScanStep(enc, ColonState(att), text, ptr);
    NameCharIsChecked(enc, text, ptr);
    CharSettled(enc, text, [], ptr);
    hide TypeOf;
  }

  /** The first byte behind a name. */
  lemma {:induction false} NameEndStep(enc: Encoding, colon: bool, text: seq<Byte>, ptr: nat)
    requires ptr < |text| && !CheckName(enc, text, ptr).Go? && !(enc.ns && text[ptr] == 0x3a && !colon)
    ensures var r := Scan(enc, StartName(colon), text, ptr);
            if IsBlank(text[ptr]) then r == Scan(enc, StartGap, text, ptr + 1)
            else if text[ptr] == 0x3e then r == Token(StartTagNoAtts, ptr + 1)
            else if text[ptr] == 0x2f then r == Scan(enc, Slash(false), text, ptr + 1)
            else !r.Token?
    ensures var r := Scan(enc, AttName(colon), text, ptr);
            if IsBlank(text[ptr]) then r == Scan(enc, AttBeforeEquals, text, ptr + 1)
            else if text[ptr] == 0x3d then r == Scan(enc, AttAfterEquals, text, ptr + 1)
            else !r.Token?
  {
    hide Scan;
    hide CheckName;
    ScanStep(enc, StartName(colon), text, ptr);
    ScanStep(enc, AttName(colon), text, ptr);
    CharSettled(enc, text, [], ptr);
    TypesOfMarkup(enc, text[ptr]);
    EndsNoName(enc, text, ptr);
    hide TypeOf;
  }

  /** Bytes of markup are in no name. */
  lemma {:induction false} EndsNoName(enc: Encoding, text: seq<Byte>, ptr: nat)
    requires ptr < |text|
    ensures IsBlank(text[ptr]) || text[ptr] in {0x3e, 0x2f, 0x3d, 0x22, 0x27, 0x3f} ==>
              CheckName(enc, text, ptr).NoMatch? && CheckNmstrt(enc, text, ptr).NoMatch?
    ensures text[ptr] == 0x3a && enc.ns ==> CheckName(enc, text, ptr).NoMatch?
  {
  }

  /** Behind blanks in front of an attribute or of the end. */
  lemma {:induction false} GapStep(enc: Encoding, atts: bool, text: seq<Byte>, ptr: nat)
    requires ptr < |text| && !IsBlank(text[ptr])
    ensures var r, n := Scan(enc, Gap(atts), text, ptr), LeadLength(text[ptr]);
            if text[ptr] == 0x3e then r == Token(TagKind(atts, false), ptr + 1)
            else if text[ptr] == 0x2f then r == Scan(enc, Slash(atts), text, ptr + 1)
            else if ptr + n <= |text| && StartChar(enc, text[ptr..ptr + n]) then
              r == Scan(enc, AttName(false), text, ptr + n)
            else !r.Token?
  {
    hide Scan;
    hide CheckNmstrt;
    hide StartChar;
    ScanStep(enc, Gap(atts), text, ptr);
    NameCharIsChecked(enc, text, ptr);
    CharSettled(enc, text, [], ptr);
    TypesOfMarkup(enc, text[ptr]);
    EndsNoName(enc, text, ptr);
    hide TypeOf;
  }

  lemma {:induction false} CloseStep(enc: Encoding, text: seq<Byte>, ptr: nat)
    requires ptr < |text|
    ensures var r := Scan(enc, AttClose, text, ptr);
            if IsBlank(text[ptr]) then r == Scan(enc, AttGap, text, ptr + 1)
            else if text[ptr] == 0x3e then r == Token(StartTagWithAtts, ptr + 1)
            else if text[ptr] == 0x2f then r == Scan(enc, Slash(true), text, ptr + 1)
            else !r.Token?
  {
    hide Scan;
    ScanStep(enc, AttClose, text, ptr);
    TypesOfMarkup(enc, text[ptr]);
    hide TypeOf;
  }

  lemma {:induction false} SlashStep(enc: Encoding, atts: bool, text: seq<Byte>, ptr: nat)
    requires ptr <= |text|
    ensures if ptr < |text| && text[ptr] == 0x3e then Scan(enc, Slash(atts), text, ptr) == Token(TagKind(atts, true), ptr + 1)
            else !Scan(enc, Slash(atts), text, ptr).Token?
  {
    hide Scan;
    ScanStep(enc, Slash(atts), text, ptr);
    hide TypeOf;
  }

  lemma {:induction false} EqualsStep(enc: Encoding, text: seq<Byte>, ptr: nat)
    requires ptr < |text| && !IsBlank(text[ptr])
    ensures var r := Scan(enc, AttBeforeEquals, text, ptr);
            if text[ptr] == 0x3d then r == Scan(enc, AttAfterEquals, text, ptr + 1) else !r.Token?
    ensures var r := Scan(enc, AttAfterEquals, text, ptr);
            if text[ptr] == 0x22 || text[ptr] == 0x27 then r == Scan(enc, AttValue(text[ptr] == 0x22), text, ptr + 1)
            else !r.Token?
  {
    hide Scan;
    ScanStep(enc, AttBeforeEquals, text, ptr);
    ScanStep(enc, AttAfterEquals, text, ptr);
    TypesOfMarkup(enc, text[ptr]);
    hide TypeOf;
  }

  lemma {:induction false} NothingAtTheEnd(enc: Encoding, s: State, text: seq<Byte>)
    requires Placed(s, |text|)
    ensures !Scan(enc, s, text, |text|).Token?
  {
    hide Scan;
    ScanStep(enc, s, text, |text|);
  }

  // ----- pieces of a text -----

  /** A text that begins with a part: the part, and the place behind it. */
  lemma {:induction false} TakePart(text: seq<Byte>, ptr: nat, end: nat, a: seq<Byte>, rest: seq<Byte>)
    requires ptr <= end <= |text| && text[ptr..end] == a + rest
    ensures ptr + |a| <= end && text[ptr..ptr + |a|] == a && text[ptr + |a|..end] == rest
    ensures |a| > 0 ==> text[ptr] == a[0]
  {
    var all := text[ptr..end];
    Part(text, ptr, end, 0, |a|);
    Part(text, ptr, end, |a|, end - ptr);
    assert all[0..|a|] == a && all[|a|..end - ptr] == rest;
  }

  lemma {:induction false} JoinParts(text: seq<Byte>, a: nat, b: nat, c: nat)
    requires a <= b <= c <= |text|
    ensures text[a..b] + text[b..c] == text[a..c]
  {
  }

  // ----- names -----

  /** A name, with its prefix, behind its first character. */
  lemma {:induction false} QNameIsScanned(enc: Encoding, att: bool, text: seq<Byte>, first: nat, end: nat,
                                          prefix: seq<Byte>, local: seq<Byte>)
    requires first <= end <= |text| && IsQName(enc, prefix, local) && text[first..end] == QName(prefix, local)
    ensures first < end && first + LeadLength(text[first]) <= end
    ensures StartChar(enc, text[first..first + LeadLength(text[first])])
    ensures Scan(enc, NameState(att, false), text, first + LeadLength(text[first])) ==
            Scan(enc, NameState(att, prefix != []), text, end)
  {
    hide Scan;
    hide IsName;
    hide StartChar;
    hide CheckNmstrt;
    hide NameState;
    hide LeadLength;
    if prefix == [] {
      NameBegins(enc, text, first, end);
      NameStates(att, false, first + LeadLength(text[first]));
      NameCharsAreSkipped(enc, NameState(att, false), text, first + LeadLength(text[first]), end);
    } else {
      PrefixedIsScanned(enc, att, text, first, end, prefix, local);
    }
  }

  lemma {:induction false} NameStates(att: bool, colon: bool, ptr: nat)
    ensures InsideName(NameState(att, colon)) && Placed(NameState(att, colon), ptr)
  {
  }

  lemma {:induction false} PrefixedIsScanned(enc: Encoding, att: bool, text: seq<Byte>, first: nat, end: nat,
                                             prefix: seq<Byte>, local: seq<Byte>)
    requires first <= end <= |text| && enc.ns && IsName(enc, prefix) && IsName(enc, local)
    requires text[first..end] == prefix + [0x3a] + local
    ensures first < end && first + LeadLength(text[first]) <= end
    ensures StartChar(enc, text[first..first + LeadLength(text[first])])
    ensures Scan(enc, NameState(att, false), text, first + LeadLength(text[first])) ==
            Scan(enc, NameState(att, true), text, end)
  {
    hide Scan;
    hide IsName;
    hide StartChar;
    hide CheckNmstrt;
    hide NameState;
    hide LeadLength;
    assert prefix + [0x3a] + local == prefix + ([0x3a] + local);
    TakePart(text, first, end, prefix, [0x3a] + local);
    var colon := first + |prefix|;
    TakePart(text, colon, end, [0x3a], local);
    NameBegins(enc, text, first, colon);
    NameStates(att, false, first + LeadLength(text[first]));
    NameCharsAreSkipped(enc, NameState(att, false), text, first + LeadLength(text[first]), colon);
    ColonStep(enc, att, text, colon);
    LocalIsScanned(enc, att, text, colon + 1, end);
  }

  lemma {:induction false} LocalIsScanned(enc: Encoding, att: bool, text: seq<Byte>, first: nat, end: nat)
    requires first <= end <= |text| && IsName(enc, text[first..end])
    ensures Scan(enc, ColonState(att), text, first) == Scan(enc, NameState(att, true), text, end)
  {
    hide Scan;
    hide StartChar;
    hide CheckNmstrt;
    hide NameState;
    hide LeadLength;
    NameBegins(enc, text, first, end);
    hide IsName;
    LocalStep(enc, att, text, first);
    NameStates(att, true, first + LeadLength(text[first]));
    NameCharsAreSkipped(enc, NameState(att, true), text, first + LeadLength(text[first]), end);
  }

  /** The name a scanner has read when it stands behind one. */
  lemma {:induction false} QNameIsGood(enc: Encoding, att: bool, text: seq<Byte>, first: nat)
    returns (prefix: seq<Byte>, local: seq<Byte>, end: nat)
    requires first < |text| && first + LeadLength(text[first]) <= |text|
    requires StartChar(enc, text[first..first + LeadLength(text[first])])
    requires Scan(enc, NameState(att, false), text, first + LeadLength(text[first])).Token?
    ensures first < end < |text| && IsQName(enc, prefix, local) && text[first..end] == QName(prefix, local)
    ensures Scan(enc, NameState(att, false), text, first + LeadLength(text[first])) ==
            Scan(enc, NameState(att, prefix != []), text, end)
    ensures !CheckName(enc, text, end).Go? && !(enc.ns && text[end] == 0x3a && prefix == [])
  {
    hide Scan;
    hide IsName;
    hide StartChar;
    hide CheckName;
    var from := first + LeadLength(text[first]);
    end := NameEnds(enc, text, from);
    NameEndsIs(enc, text, from);
    NameCharsAreSkipped(enc, NameState(att, false), text, from, end);
    NothingAtTheEnd(enc, NameState(att, false), text);
    NameIsWhole(enc, text, first, from, end);
    prefix, local := [], text[first..end];
    if enc.ns && text[end] == 0x3a {
      ColonStep(enc, att, text, end);
      prefix, local, end := LocalIsGood(enc, att, text, first, end);
    }
  }

  /** The local part behind a colon. */
  lemma {:induction false} LocalEnds(enc: Encoding, att: bool, text: seq<Byte>, first: nat) returns (end: nat)
    requires first <= |text| && Scan(enc, ColonState(att), text, first).Token?
    ensures first < end < |text| && IsName(enc, text[first..end]) && !CheckName(enc, text, end).Go?
    ensures Scan(enc, ColonState(att), text, first) == Scan(enc, NameState(att, true), text, end)
  {
    hide Scan;
    hide IsName;
    hide StartChar;
    hide CheckName;
    hide NameEnds;
    NothingAtTheEnd(enc, ColonState(att), text);
    LocalStep(enc, att, text, first);
    var from := first + LeadLength(text[first]);
    end := NameEnds(enc, text, from);
    NameEndsIs(enc, text, from);
    NameCharsAreSkipped(enc, NameState(att, true), text, from, end);
    NothingAtTheEnd(enc, NameState(att, true), text);
    NameIsWhole(enc, text, first, from, end);
  }

  lemma {:induction false} LocalIsGood(enc: Encoding, att: bool, text: seq<Byte>, first: nat, colon: nat)
    returns (prefix: seq<Byte>, local: seq<Byte>, end: nat)
    requires first < colon < |text| && enc.ns && text[colon] == 0x3a && IsName(enc, text[first..colon])
    requires Scan(enc, ColonState(att), text, colon + 1).Token?
    ensures prefix != [] && first < end < |text| && IsQName(enc, prefix, local) && text[first..end] == QName(prefix, local)
    ensures Scan(enc, ColonState(att), text, colon + 1) == Scan(enc, NameState(att, true), text, end)
    ensures !CheckName(enc, text, end).Go?
  {
    hide Scan;
    hide IsName;
    hide StartChar;
    hide CheckName;
    hide NameEnds;
    end := LocalEnds(enc, att, text, colon + 1);
    prefix, local := text[first..colon], text[colon + 1..end];
    JoinParts(text, first, colon, end);
    JoinParts(text, colon, colon + 1, end);
    assert text[colon..colon + 1] == [0x3a];
    assert prefix + [0x3a] + local == prefix + ([0x3a] + local);
  }

  // ----- attributes -----

  /** Blanks in front of an attribute, or of the end of the tag. */
  lemma {:induction false} GapIsScanned(enc: Encoding, atts: bool, colon: bool, text: seq<Byte>, ptr: nat, end: nat)
    requires ptr < end <= |text| && Blanks(text[ptr..end])
    ensures Scan(enc, Behind(atts, colon), text, ptr) == Scan(enc, Gap(atts), text, end)
  {
    hide Scan;
    hide CheckName;
    hide CheckNmstrt;
    assert text[ptr] == text[ptr..end][0] && text[ptr..end][1..] == text[ptr + 1..end];
    EndsNoName(enc, text, ptr);
    NameEndStep(enc, colon, text, ptr);
    CloseStep(enc, text, ptr);
    BlanksAreSkipped(enc, Gap(atts), text, ptr + 1, end);
  }

  /** From behind the name of an attribute to its value. */
  lemma {:induction false} EqualsIsScanned(enc: Encoding, colon: bool, text: seq<Byte>, ptr: nat, equals: nat, quote: nat)
    requires ptr <= equals < quote < |text| && text[equals] == 0x3d && text[quote] in {0x22, 0x27}
    requires Blanks(text[ptr..equals]) && Blanks(text[equals + 1..quote])
    ensures Scan(enc, AttName(colon), text, ptr) == Scan(enc, AttValue(text[quote] == 0x22), text, quote + 1)
  {
    hide Scan;
    hide CheckName;
    hide CheckNmstrt;
    EndsNoName(enc, text, equals);
    EndsNoName(enc, text, ptr);
    NameEndStep(enc, colon, text, equals);
    if ptr < equals {
      assert text[ptr] == text[ptr..equals][0] && text[ptr..equals][1..] == text[ptr + 1..equals];
      NameEndStep(enc, colon, text, ptr);
      BlanksAreSkipped(enc, AttBeforeEquals, text, ptr + 1, equals);
      EqualsStep(enc, text, equals);
    }
    BlanksAreSkipped(enc, AttAfterEquals, text, equals + 1, quote);
    EqualsStep(enc, text, quote);
  }

  /** Where the parts of an attribute stand: its name, what is behind it, '=', the quote, and the other quote. */
  lemma {:induction false} AttParts(text: seq<Byte>, ptr: nat, end: nat, a: Att)
    returns (name: nat, before: nat, equals: nat, quote: nat)
    requires ptr <= end <= |text| && text[ptr..end] == AttText(a)
    ensures ptr <= name <= before <= equals < quote < end - 1
    ensures text[ptr..name] == a.gap && text[name..before] == QName(a.prefix, a.local)
    ensures text[before..equals] == a.before && text[equals] == 0x3d && text[equals + 1..quote] == a.after
    ensures text[quote] == text[end - 1] == QuoteByte(a.quot) && text[quote + 1..end - 1] == a.value
  {
    hide QName;
    hide QuoteByte;
    var q := [QuoteByte(a.quot)];
    var value := a.after + (q + (a.value + q));
    assert AttText(a) == a.gap + (QName(a.prefix, a.local) + (a.before + ([0x3d] + value)));
    name, before, equals := NameParts(text, ptr, end, a.gap, QName(a.prefix, a.local), a.before, value);
    quote := ValueParts(text, equals + 1, end, a.after, QuoteByte(a.quot), a.value);
  }

  lemma {:induction false} NameParts(text: seq<Byte>, ptr: nat, end: nat, gap: seq<Byte>, qname: seq<Byte>,
                                     blanks: seq<Byte>, value: seq<Byte>)
    returns (name: nat, before: nat, equals: nat)
    requires ptr <= end <= |text| && text[ptr..end] == gap + (qname + (blanks + ([0x3d] + value)))
    ensures ptr <= name <= before <= equals < end && text[ptr..name] == gap && text[name..before] == qname
    ensures text[before..equals] == blanks && text[equals] == 0x3d && text[equals + 1..end] == value
  {
    name := ptr + |gap|;
    TakePart(text, ptr, end, gap, qname + (blanks + ([0x3d] + value)));
    TakePart(text, name, end, qname, blanks + ([0x3d] + value));
    before := name + |qname|;
    TakePart(text, before, end, blanks, [0x3d] + value);
    equals := before + |blanks|;
    TakePart(text, equals, end, [0x3d], value);
  }

  lemma {:induction false} ValueParts(text: seq<Byte>, from: nat, end: nat, blanks: seq<Byte>, q: Byte, value: seq<Byte>)
    returns (quote: nat)
    requires from <= end <= |text| && text[from..end] == blanks + ([q] + (value + [q]))
    ensures from <= quote < end - 1 && text[from..quote] == blanks
    ensures text[quote] == text[end - 1] == q && text[quote + 1..end - 1] == value
  {
    quote := from + |blanks|;
    TakePart(text, from, end, blanks, [q] + (value + [q]));
    TakePart(text, quote, end, [q], value + [q]);
    TakePart(text, quote + 1, end, value, [q]);
    assert text[end - 1] == text[end - 1..end][0];
  }

  /** One attribute. */
  lemma {:induction false} AttIsScanned(enc: Encoding, atts: bool, colon: bool, text: seq<Byte>, ptr: nat, end: nat, a: Att)
    requires ptr <= end <= |text| && GoodAtt(enc, a) && text[ptr..end] == AttText(a)
    ensures Scan(enc, Behind(atts, colon), text, ptr) == Scan(enc, AttClose, text, end)
  {
    hide Scan;
    hide Behind;
    hide Gap;
    hide IsQName;
    hide QName;
    hide ValueChars;
    hide StartChar;
    hide AttText;
    var name, before, equals, quote := AttParts(text, ptr, end, a);
    GapIsScanned(enc, atts, colon, text, ptr, name);
    QNameIsScanned(enc, true, text, name, before, a.prefix, a.local);
    NameFollowsGap(enc, atts, text, name);
    EqualsIsScanned(enc, a.prefix != [], text, before, equals, quote);
    ValueIsScanned(enc, a.quot, text, quote + 1, end - 1);
  }

  lemma {:induction false} NameFollowsGap(enc: Encoding, atts: bool, text: seq<Byte>, ptr: nat)
    requires ptr < |text| && ptr + LeadLength(text[ptr]) <= |text| && StartChar(enc, text[ptr..ptr + LeadLength(text[ptr])])
    ensures Scan(enc, Gap(atts), text, ptr) == Scan(enc, AttName(false), text, ptr + LeadLength(text[ptr]))
  {
    hide Scan;
    StartIsNoMarkup(enc, text, ptr);
    hide StartChar;
    GapStep(enc, atts, text, ptr);
  }

  lemma {:induction false} StartIsNoMarkup(enc: Encoding, text: seq<Byte>, ptr: nat)
    requires ptr < |text| && ptr + LeadLength(text[ptr]) <= |text| && StartChar(enc, text[ptr..ptr + LeadLength(text[ptr])])
    ensures !IsBlank(text[ptr]) && text[ptr] !in {0x3e, 0x2f, 0x3d, 0x21, 0x3f}
  {
    var c := text[ptr..ptr + LeadLength(text[ptr])];
    assert c[0] == text[ptr];
  }

  /** The end of a tag behind its last attribute or its name. */
  lemma {:induction false} EndIsScanned(enc: Encoding, atts: bool, colon: bool, text: seq<Byte>, ptr: nat, end: nat,
                                        gap: seq<Byte>, empty: bool)
    requires ptr <= end <= |text| && Blanks(gap) && text[ptr..end] == gap + TagEnd(empty)
    ensures Scan(enc, Behind(atts, colon), text, ptr) == Token(TagKind(atts, empty), end)
  {
    hide Scan;
    hide CheckName;
    hide CheckNmstrt;
    TakePart(text, ptr, end, gap, TagEnd(empty));
    var e := ptr + |gap|;
    assert text[e..end][0] == text[e];
    assert empty ==> text[e..end][1] == text[e + 1];
    EndsNoName(enc, text, e);
    if |gap| > 0 {
      GapIsScanned(enc, atts, colon, text, ptr, e);
      GapStep(enc, atts, text, e);
    } else {
      NameEndStep(enc, colon, text, e);
      CloseStep(enc, text, e);
    }
    if empty {
      SlashStep(enc, atts, text, e + 1);
    }
  }

  lemma {:induction false} AttsAreScanned(enc: Encoding, atts: bool, colon: bool, text: seq<Byte>, ptr: nat, end: nat,
                                          list: seq<Att>, gap: seq<Byte>, empty: bool)
    requires ptr <= end <= |text| && GoodAtts(enc, list) && Blanks(gap)
    requires text[ptr..end] == AttsText(list) + (gap + TagEnd(empty))
    ensures Scan(enc, Behind(atts, colon), text, ptr) == Token(TagKind(atts || list != [], empty), end)
    decreases |list|
  {
    hide Scan;
    hide Behind;
    hide GoodAtt;
    hide AttText;
    hide TagEnd;
    if |list| == 0 {
      assert AttsText(list) + (gap + TagEnd(empty)) == gap + TagEnd(empty);
      EndIsScanned(enc, atts, colon, text, ptr, end, gap, empty);
    } else {
      var rest := AttsText(list[1..]) + (gap + TagEnd(empty));
      assert AttsText(list) + (gap + TagEnd(empty)) == AttText(list[0]) + rest;
      TakePart(text, ptr, end, AttText(list[0]), rest);
      var next := ptr + |AttText(list[0])|;
      AttIsScanned(enc, atts, colon, text, ptr, next, list[0]);
      AttsAreScanned(enc, true, colon, text, next, end, list[1..], gap, empty);
      assert Behind(true, colon) == AttClose by { BehindAtts(colon); }
    }
  }

  lemma {:induction false} BehindAtts(colon: bool)
    ensures Behind(true, colon) == AttClose
  {
  }

  /** A start tag of the grammar is scanned to its end. */
  lemma {:induction false} TagIsScanned(enc: Encoding, text: seq<Byte>, ptr: nat, end: nat, t: Tag)
    requires ptr <= end <= |text| && GoodTag(enc, t) && text[ptr..end] == TagText(t)
    ensures Scan(enc, AfterLt, text, ptr) == Token(TagKind(t.atts != [], t.empty), end)
  {
    hide Scan;
    hide IsQName;
    hide QName;
    hide AttsText;
    hide StartChar;
    var name := QName(t.prefix, t.local);
    TakePart(text, ptr, end, name, AttsText(t.atts) + (t.gap + TagEnd(t.empty)));
    var next := ptr + |name|;
    QNameIsScanned(enc, false, text, ptr, next, t.prefix, t.local);
    NameFollowsLt(enc, text, ptr);
    AttsAreScanned(enc, false, t.prefix != [], text, next, end, t.atts, t.gap, t.empty);
  }

  lemma {:induction false} NameFollowsLt(enc: Encoding, text: seq<Byte>, ptr: nat)
    requires ptr < |text| && ptr + LeadLength(text[ptr]) <= |text| && StartChar(enc, text[ptr..ptr + LeadLength(text[ptr])])
    ensures Scan(enc, AfterLt, text, ptr) == Scan(enc, StartName(false), text, ptr + LeadLength(text[ptr]))
  {
    hide Scan;
    hide CheckNmstrt;
    NameCharIsChecked(enc, text, ptr);
    ScanStep(enc, AfterLt, text, ptr);
  }

  // ----- only tags of the grammar are accepted -----

  /** From behind the name of an attribute to behind its value. */
  lemma {:induction false} RestOfAttIsGood(enc: Encoding, colon: bool, text: seq<Byte>, ptr: nat)
    returns (equals: nat, quote: nat, end: nat)
    requires ptr < |text| && !CheckName(enc, text, ptr).Go? && !(enc.ns && text[ptr] == 0x3a && !colon)
    requires Scan(enc, AttName(colon), text, ptr).Token?
    ensures ptr <= equals < quote < end < |text| && text[equals] == 0x3d && text[quote] in {0x22, 0x27}
    ensures Blanks(text[ptr..equals]) && Blanks(text[equals + 1..quote]) && text[end] == text[quote]
    ensures ValueChars(enc, text[quote] == 0x22, text[quote + 1..end])
    ensures Scan(enc, AttName(colon), text, ptr) == Scan(enc, AttClose, text, end + 1)
  {
    hide Scan;
    hide CheckName;
    hide ValueChars;
    hide BlanksEnd;
    NameEndStep(enc, colon, text, ptr);
    equals := ptr;
    if IsBlank(text[ptr]) {
      equals := BlanksEnd(text, ptr + 1);
      BlanksAreSkipped(enc, AttBeforeEquals, text, ptr + 1, equals);
      NothingAtTheEnd(enc, AttBeforeEquals, text);
      EqualsStep(enc, text, equals);
      assert text[ptr..equals] == [text[ptr]] + text[ptr + 1..equals];
    } else {
      assert text[ptr..equals] == [];
    }
    quote := BlanksEnd(text, equals + 1);
    BlanksAreSkipped(enc, AttAfterEquals, text, equals + 1, quote);
    NothingAtTheEnd(enc, AttAfterEquals, text);
    EqualsStep(enc, text, quote);
    end := ValueIsGood(enc, text[quote] == 0x22, text, quote + 1);
  }

  /** An attribute that has been read is one of the grammar. */
  lemma {:induction false} AttIsGood(enc: Encoding, atts: bool, text: seq<Byte>, ptr: nat, name: nat)
    returns (a: Att, end: nat)
    requires ptr < name < |text| && Blanks(text[ptr..name])
    requires name + LeadLength(text[name]) <= |text| && StartChar(enc, text[name..name + LeadLength(text[name])])
    requires Scan(enc, AttName(false), text, name + LeadLength(text[name])).Token?
    ensures name < end <= |text| && GoodAtt(enc, a) && text[ptr..end] == AttText(a)
    ensures Scan(enc, AttName(false), text, name + LeadLength(text[name])) == Scan(enc, AttClose, text, end)
  {
    hide Scan;
    hide CheckName;
    hide ValueChars;
    hide IsQName;
    hide QName;
    hide StartChar;
    var prefix, local, before := QNameIsGood(enc, true, text, name);
    var equals, quote, last := RestOfAttIsGood(enc, prefix != [], text, before);
    end := last + 1;
    a := Att(text[ptr..name], prefix, local, text[before..equals], text[equals + 1..quote], text[quote] == 0x22,
             text[quote + 1..last]);
    AttIsJoined(text, ptr, name, before, equals, quote, last, a);
  }

  lemma {:induction false} AttIsJoined(text: seq<Byte>, ptr: nat, name: nat, before: nat, equals: nat, quote: nat,
                                       last: nat, a: Att)
    requires ptr <= name <= before <= equals < quote < last < |text|
    requires a.gap == text[ptr..name] && QName(a.prefix, a.local) == text[name..before]
    requires a.before == text[before..equals] && a.after == text[equals + 1..quote] && a.value == text[quote + 1..last]
    requires text[equals] == 0x3d && text[quote] == text[last] == QuoteByte(a.quot)
    ensures text[ptr..last + 1] == AttText(a)
  {
    hide QName;
    hide QuoteByte;
    var end := last + 1;
    ValueIsJoined(text, equals, quote, last, QuoteByte(a.quot));
    JoinParts(text, before, equals, end);
    JoinParts(text, name, before, end);
    JoinParts(text, ptr, name, end);
  }

  lemma {:induction false} ValueIsJoined(text: seq<Byte>, equals: nat, quote: nat, last: nat, q: Byte)
    requires equals < quote < last < |text| && text[equals] == 0x3d && text[quote] == text[last] == q
    ensures text[equals..last + 1] == [0x3d] + (text[equals + 1..quote] + ([q] + (text[quote + 1..last] + [q])))
  {
    var end := last + 1;
    assert text[last..end] == [q] && text[quote..quote + 1] == [q] && text[equals..equals + 1] == [0x3d];
    JoinParts(text, quote + 1, last, end);
    JoinParts(text, quote, quote + 1, end);
    JoinParts(text, equals + 1, quote, end);
    JoinParts(text, equals, equals + 1, end);
  }

  /** What stands behind a name or a value that is no blank: the end of the tag. */
  lemma {:induction false} EndIsGood(enc: Encoding, atts: bool, text: seq<Byte>, ptr: nat, r: Result) returns (empty: bool)
    requires ptr < |text| && r.Token?
    requires if text[ptr] == 0x3e then r == Token(TagKind(atts, false), ptr + 1)
             else text[ptr] == 0x2f && r == Scan(enc, Slash(atts), text, ptr + 1)
    ensures ptr <= r.next <= |text| && text[ptr..r.next] == TagEnd(empty) && r.kind == TagKind(atts, empty)
  {
    hide Scan;
    empty := text[ptr] == 0x2f;
    if empty {
      SlashStep(enc, atts, text, ptr + 1);
    }
  }

  lemma {:induction false} AttsAreGood(enc: Encoding, atts: bool, colon: bool, text: seq<Byte>, ptr: nat)
    returns (list: seq<Att>, gap: seq<Byte>, empty: bool)
    requires ptr < |text| && Scan(enc, Behind(atts, colon), text, ptr).Token?
    requires !atts ==> !CheckName(enc, text, ptr).Go? && !(enc.ns && text[ptr] == 0x3a && !colon)
    ensures var r := Scan(enc, Behind(atts, colon), text, ptr);
            && ptr <= r.next <= |text| && GoodAtts(enc, list) && Blanks(gap)
            && text[ptr..r.next] == AttsText(list) + (gap + TagEnd(empty))
            && r.kind == TagKind(atts || list != [], empty)
    decreases |text| - ptr
  {
    hide Scan;
    hide CheckName;
    hide GoodAtt;
    hide AttText;
    hide BlanksEnd;
    hide StartChar;
    var r := Scan(enc, Behind(atts, colon), text, ptr);
    if !atts {
      NameEndStep(enc, colon, text, ptr);
    }
    CloseStep(enc, text, ptr);
    list, gap := [], [];
    if !IsBlank(text[ptr]) {
      empty := EndIsGood(enc, atts, text, ptr, r);
      NoAtts(gap, empty);
      assert [] + TagEnd(empty) == TagEnd(empty);
    } else {
      var name := BlanksEnd(text, ptr + 1);
      assert text[ptr..name] == [text[ptr]] + text[ptr + 1..name];
      BlanksAreSkipped(enc, Gap(atts), text, ptr + 1, name);
      NothingAtTheEnd(enc, Gap(atts), text);
      GapStep(enc, atts, text, name);
      if text[name] == 0x3e || text[name] == 0x2f {
        empty := EndIsGood(enc, atts, text, name, r);
        gap := text[ptr..name];
        JoinParts(text, ptr, name, r.next);
        NoAtts(gap, empty);
      } else {
        list, gap, empty := MoreAttsAreGood(enc, atts, text, ptr, name);
      }
    }
  }

  lemma {:induction false} NoAtts(gap: seq<Byte>, empty: bool)
    ensures AttsText([]) + (gap + TagEnd(empty)) == gap + TagEnd(empty)
  {
  }

  lemma {:induction false} MoreAttsAreGood(enc: Encoding, atts: bool, text: seq<Byte>, ptr: nat, name: nat)
    returns (list: seq<Att>, gap: seq<Byte>, empty: bool)
    requires ptr < name < |text| && Blanks(text[ptr..name])
    requires name + LeadLength(text[name]) <= |text| && StartChar(enc, text[name..name + LeadLength(text[name])])
    requires Scan(enc, AttName(false), text, name + LeadLength(text[name])).Token?
    ensures var r := Scan(enc, AttName(false), text, name + LeadLength(text[name]));
            && ptr <= r.next <= |text| && GoodAtts(enc, list) && Blanks(gap) && list != []
            && text[ptr..r.next] == AttsText(list) + (gap + TagEnd(empty))
            && r.kind == TagKind(true, empty)
    decreases |text| - ptr, 0
  {
    hide Scan;
    hide StartChar;
    hide GoodAtt;
    hide AttText;
    hide TagEnd;
    var a, end := AttIsGood(enc, atts, text, ptr, name);
    NothingAtTheEnd(enc, AttClose, text);
    list, gap, empty := AttsAreGood(enc, true, false, text, end);
    var r := Scan(enc, AttClose, text, end);
    JoinParts(text, ptr, end, r.next);
    assert ([a] + list)[1..] == list && ([a] + list)[0] == a;
    assert AttText(a) + (AttsText(list) + (gap + TagEnd(empty))) == AttText(a) + AttsText(list) + (gap + TagEnd(empty));
    list := [a] + list;
  }

  // ----- end tags -----

  /** The name of an end tag: colons may stand anywhere behind its first character. */
  predicate ClosingName(enc: Encoding, s: seq<Byte>) {
    |s| > 0 && LeadLength(s[0]) <= |s| && StartChar(enc, s[..LeadLength(s[0])]) && ClosingChars(enc, s[LeadLength(s[0])..])
  }

  predicate ClosingChars(enc: Encoding, s: seq<Byte>)
    decreases |s|
  {
    || |s| == 0
    || (enc.ns && s[0] == 0x3a && ClosingChars(enc, s[1..]))
    || (LeadLength(s[0]) <= |s| && NameChar(enc, s[..LeadLength(s[0])]) && ClosingChars(enc, s[LeadLength(s[0])..]))
  }

  lemma {:induction false} ClosingStep(enc: Encoding, text: seq<Byte>, ptr: nat)
    requires ptr < |text|
    ensures var r, n := Scan(enc, EndName, text, ptr), LeadLength(text[ptr]);
            if ptr + n <= |text| && NameChar(enc, text[ptr..ptr + n]) then r == Scan(enc, EndName, text, ptr + n)
            else if enc.ns && text[ptr] == 0x3a then r == Scan(enc, EndName, text, ptr + 1)
            else if IsBlank(text[ptr]) then r == Scan(enc, EndGap, text, ptr + 1)
            else if text[ptr] == 0x3e then r == Token(EndTag, ptr + 1)
            else !r.Token?
  {
    hide Scan;
    hide CheckName;
    hide NameChar;
    ScanStep(enc, EndName, text, ptr);
    NameCharIsChecked(enc, text, ptr);
    CharSettled(enc, text, [], ptr);
    TypesOfMarkup(enc, text[ptr]);
    EndsNoName(enc, text, ptr);
    hide TypeOf;
  }

  lemma {:induction false} ClosingEdges(enc: Encoding, text: seq<Byte>, ptr: nat)
    requires ptr < |text|
    ensures var r, n := Scan(enc, EndStart, text, ptr), LeadLength(text[ptr]);
            if ptr + n <= |text| && StartChar(enc, text[ptr..ptr + n]) then r == Scan(enc, EndName, text, ptr + n)
            else !r.Token?
    ensures var r := Scan(enc, EndGap, text, ptr);
            if IsBlank(text[ptr]) then r == Scan(enc, EndGap, text, ptr + 1)
            else if text[ptr] == 0x3e then r == Token(EndTag, ptr + 1)
            else !r.Token?
  {
    hide Scan;
    hide CheckNmstrt;
    hide StartChar;
    ScanStep(enc, EndStart, text, ptr);
    ScanStep(enc, EndGap, text, ptr);
    NameCharIsChecked(enc, text, ptr);
    CharSettled(enc, text, [], ptr);
    TypesOfMarkup(enc, text[ptr]);
    hide TypeOf;
  }

  /** A byte that ends the name of an end tag. */
  lemma {:induction false} EndsClosingName(enc: Encoding, text: seq<Byte>, ptr: nat)
    requires ptr < |text| && (IsBlank(text[ptr]) || text[ptr] == 0x3e)
    ensures LeadLength(text[ptr]) == 1 && !NameChar(enc, text[ptr..ptr + 1])
  {
  }

  lemma {:induction false} ClosingCharsAreSkipped(enc: Encoding, text: seq<Byte>, ptr: nat, end: nat)
    requires ptr <= end <= |text| && ClosingChars(enc, text[ptr..end])
    ensures Scan(enc, EndName, text, ptr) == Scan(enc, EndName, text, end)
    decreases end - ptr
  {
    hide Scan;
    hide NameChar;
    if ptr < end {
      var n, s := LeadLength(text[ptr]), text[ptr..end];
      assert s[0] == text[ptr];
      ClosingStep(enc, text, ptr);
      assert n <= |s| ==> s[..n] == text[ptr..ptr + n] && s[n..] == text[ptr + n..end];
      if n <= |s| && NameChar(enc, s[..n]) && ClosingChars(enc, s[n..]) {
        ClosingCharsAreSkipped(enc, text, ptr + n, end);
      } else {
        assert s[1..] == text[ptr + 1..end];
        ColonIsAlone(enc, text, ptr);
        ClosingCharsAreSkipped(enc, text, ptr + 1, end);
      }
    }
  }

  lemma {:induction false} ColonIsAlone(enc: Encoding, text: seq<Byte>, ptr: nat)
    requires ptr < |text| && enc.ns && text[ptr] == 0x3a
    ensures LeadLength(text[ptr]) == 1 && !NameChar(enc, text[ptr..ptr + 1])
  {
  }

  lemma {:induction false} EndTagIsScanned(enc: Encoding, text: seq<Byte>, ptr: nat, end: nat, name: seq<Byte>,
                                           gap: seq<Byte>)
    requires ptr <= end <= |text| && ClosingName(enc, name) && Blanks(gap) && text[ptr..end] == name + (gap + [0x3e])
    ensures Scan(enc, EndStart, text, ptr) == Token(EndTag, end)
  {
    hide Scan;
    hide StartChar;
    hide NameChar;
    hide ClosingChars;
    TakePart(text, ptr, end, name, gap + [0x3e]);
    var from, g := ptr + LeadLength(text[ptr]), ptr + |name|;
    Part(text, ptr, g, 0, from - ptr);
    Part(text, ptr, g, from - ptr, |name|);
    assert name[..from - ptr] == text[ptr..from] && name[from - ptr..] == text[from..g];
    ClosingEdges(enc, text, ptr);
    ClosingCharsAreSkipped(enc, text, from, g);
    TakePart(text, g, end, gap, [0x3e]);
    var e := g + |gap|;
    assert text[e] == text[e..end][0];
    EndsClosingName(enc, text, g);
    ClosingStep(enc, text, g);
    if |gap| > 0 {
      assert text[g..e][0] == text[g] && text[g..e][1..] == text[g + 1..e];
      BlanksAreSkipped(enc, EndGap, text, g + 1, e);
      ClosingEdges(enc, text, e);
    }
  }

  /** All characters of the name of an accepted end tag from here on. */
  lemma {:induction false} ClosingCharsAreGood(enc: Encoding, text: seq<Byte>, ptr: nat) returns (end: nat)
    requires ptr <= |text| && Scan(enc, EndName, text, ptr).Token?
    ensures ptr <= end < |text| && ClosingChars(enc, text[ptr..end]) && (IsBlank(text[end]) || text[end] == 0x3e)
    ensures Scan(enc, EndName, text, ptr) == Scan(enc, EndName, text, end)
    decreases |text| - ptr
  {
    hide Scan;
    hide NameChar;
    hide ClosingChars;
    NothingAtTheEnd(enc, EndName, text);
    ClosingStep(enc, text, ptr);
    var n := LeadLength(text[ptr]);
    if ptr + n <= |text| && NameChar(enc, text[ptr..ptr + n]) {
      end := ClosingCharsAreGood(enc, text, ptr + n);
      ClosingGrows(enc, text, ptr, n, end);
    } else if enc.ns && text[ptr] == 0x3a {
      end := ClosingCharsAreGood(enc, text, ptr + 1);
      ClosingGrows(enc, text, ptr, 1, end);
    } else {
      end := ptr;
      NoClosingChars(enc, text, ptr);
    }
  }

  lemma {:induction false} NoClosingChars(enc: Encoding, text: seq<Byte>, ptr: nat)
    requires ptr <= |text|
    ensures ClosingChars(enc, text[ptr..ptr])
  {
  }

  lemma {:induction false} ClosingGrows(enc: Encoding, text: seq<Byte>, ptr: nat, n: nat, end: nat)
    requires ptr < ptr + n <= end <= |text| && ClosingChars(enc, text[ptr + n..end])
    requires || (n == 1 && enc.ns && text[ptr] == 0x3a)
             || (n == LeadLength(text[ptr]) && NameChar(enc, text[ptr..ptr + n]))
    ensures ClosingChars(enc, text[ptr..end])
  {
    hide NameChar;
    var s := text[ptr..end];
    Part(text, ptr, end, 0, n);
    Part(text, ptr, end, n, end - ptr);
    assert s[0] == text[ptr] && s[..n] == text[ptr..ptr + n] && s[n..] == text[ptr + n..end];
  }

  lemma {:induction false} EndTagIsGood(enc: Encoding, text: seq<Byte>, ptr: nat) returns (name: seq<Byte>, gap: seq<Byte>)
    requires ptr <= |text| && Scan(enc, EndStart, text, ptr).Token?
    ensures ClosingName(enc, name) && Blanks(gap)
    ensures var r := Scan(enc, EndStart, text, ptr);
            r.kind == EndTag && ptr <= r.next <= |text| && text[ptr..r.next] == name + (gap + [0x3e])
  {
    hide Scan;
    hide StartChar;
    hide NameChar;
    hide ClosingChars;
    hide BlanksEnd;
    NothingAtTheEnd(enc, EndStart, text);
    ClosingEdges(enc, text, ptr);
    var from := ptr + LeadLength(text[ptr]);
    var g := ClosingCharsAreGood(enc, text, from);
    name := text[ptr..g];
    Part(text, ptr, g, 0, from - ptr);
    Part(text, ptr, g, from - ptr, |name|);
    assert name[0] == text[ptr] && name[..from - ptr] == text[ptr..from] && name[from - ptr..] == text[from..g];
    gap := ClosingEndIsGood(enc, text, g);
    JoinParts(text, ptr, g, Scan(enc, EndStart, text, ptr).next);
  }

  /** Behind the name of an accepted end tag: blanks and '>'. */
  lemma {:induction false} ClosingEndIsGood(enc: Encoding, text: seq<Byte>, ptr: nat) returns (gap: seq<Byte>)
    requires ptr < |text| && (IsBlank(text[ptr]) || text[ptr] == 0x3e) && Scan(enc, EndName, text, ptr).Token?
    ensures var r := Scan(enc, EndName, text, ptr);
            && r.kind == EndTag && ptr <= r.next <= |text| && Blanks(gap) && text[ptr..r.next] == gap + [0x3e]
  {
    hide Scan;
    hide NameChar;
    hide BlanksEnd;
    EndsClosingName(enc, text, ptr);
    ClosingStep(enc, text, ptr);
    var e := BlanksEnd(text, ptr);
    gap := text[ptr..e];
    if ptr < e {
      assert text[ptr..e][1..] == text[ptr + 1..e];
      BlanksAreSkipped(enc, EndGap, text, ptr + 1, e);
      NothingAtTheEnd(enc, EndGap, text);
      ClosingEdges(enc, text, e);
    }
    assert text[e..e + 1] == [0x3e];
    JoinParts(text, ptr, e, e + 1);
  }

  // ----- instructions -----

  predicate AllowedTarget(enc: Encoding, target: seq<Byte>) {
    IsName(enc, target) && (IsReserved(target) ==> target == XML)
  }

  function InstructionKind(target: seq<Byte>): Kind {
    if target == XML then XmlDecl else PI
  }

  lemma {:induction false} TargetEndStep(enc: Encoding, target: nat, text: seq<Byte>, ptr: nat)
    requires target <= ptr < |text| && !CheckName(enc, text, ptr).Go?
    ensures var r, name := Scan(enc, PiName(target), text, ptr), text[target..ptr];
            if IsReserved(name) && name != XML then !r.Token?
            else if IsBlank(text[ptr]) then r == Scan(enc, PiBody(name == XML), text, ptr + 1)
            else if text[ptr] == 0x3f then r == Scan(enc, PiNameQuest(name == XML), text, ptr + 1)
            else !r.Token?
  {
    hide Scan;
    hide CheckName;
    ScanStep(enc, PiName(target), text, ptr);
    CharSettled(enc, text, [], ptr);
    TypesOfMarkup(enc, text[ptr]);
    EndsNoName(enc, text, ptr);
    hide TypeOf;
  }

  lemma {:induction false} TargetEdges(enc: Encoding, xml: bool, text: seq<Byte>, ptr: nat)
    requires ptr < |text|
    ensures var r, n := Scan(enc, PiStart, text, ptr), LeadLength(text[ptr]);
            if ptr + n <= |text| && StartChar(enc, text[ptr..ptr + n]) then r == Scan(enc, PiName(ptr), text, ptr + n)
            else !r.Token?
    ensures var r := Scan(enc, PiNameQuest(xml), text, ptr);
            if text[ptr] == 0x3e then r == Token(if xml then XmlDecl else PI, ptr + 1) else !r.Token?
  {
    hide Scan;
    hide CheckNmstrt;
    hide StartChar;
    ScanStep(enc, PiStart, text, ptr);
    ScanStep(enc, PiNameQuest(xml), text, ptr);
    NameCharIsChecked(enc, text, ptr);
    CharSettled(enc, text, [], ptr);
    hide TypeOf;
  }

  /** The target of an instruction. */
  lemma {:induction false} TargetIsScanned(enc: Encoding, text: seq<Byte>, ptr: nat, end: nat)
    requires ptr <= end <= |text| && IsName(enc, text[ptr..end])
    ensures Scan(enc, PiStart, text, ptr) == Scan(enc, PiName(ptr), text, end)
  {
    hide Scan;
    hide StartChar;
    hide CheckNmstrt;
    NameBegins(enc, text, ptr, end);
    hide IsName;
    TargetEdges(enc, false, text, ptr);
    NameCharsAreSkipped(enc, PiName(ptr), text, ptr + LeadLength(text[ptr]), end);
  }

  lemma {:induction false} InstructionIsScanned(enc: Encoding, text: seq<Byte>, ptr: nat, end: nat, target: seq<Byte>,
                                                blank: seq<Byte>, body: seq<Byte>)
    requires AllowedTarget(enc, target) && |blank| <= 1 && Blanks(blank) && PiChars(body) && (blank == [] ==> body == [])
    requires ptr <= end <= |text| && text[ptr..end] == target + (blank + (body + [0x3f, 0x3e]))
    ensures Scan(enc, PiStart, text, ptr) == Token(InstructionKind(target), end)
  {
    hide Scan;
    hide IsName;
    hide IsReserved;
    hide PiChars;
    hide CheckName;
    hide CheckNmstrt;
    TakePart(text, ptr, end, target, blank + (body + [0x3f, 0x3e]));
    var t := ptr + |target|;
    TargetIsScanned(enc, text, ptr, t);
    DataIsScanned(enc, text, ptr, t, end, blank, body);
  }

  /** From behind the target of an instruction to its end. */
  lemma {:induction false} DataIsScanned(enc: Encoding, text: seq<Byte>, target: nat, ptr: nat, end: nat,
                                         blank: seq<Byte>, body: seq<Byte>)
    requires |blank| <= 1 && Blanks(blank) && PiChars(body) && (blank == [] ==> body == [])
    requires target <= ptr <= end <= |text| && text[ptr..end] == blank + (body + [0x3f, 0x3e])
    requires IsReserved(text[target..ptr]) ==> text[target..ptr] == XML
    ensures Scan(enc, PiName(target), text, ptr) == Token(InstructionKind(text[target..ptr]), end)
  {
    hide Scan;
    hide IsReserved;
    hide PiChars;
    hide CheckName;
    hide CheckNmstrt;
    TakePart(text, ptr, end, blank, body + [0x3f, 0x3e]);
    var b := ptr + |blank|;
    TakePart(text, b, end, body, [0x3f, 0x3e]);
    var e, xml := b + |body|, text[target..ptr] == XML;
    assert text[e..end][0] == text[e] && text[e..end][1] == text[e + 1];
    EndsNoName(enc, text, ptr);
    TargetEndStep(enc, target, text, ptr);
    if |blank| == 1 {
      PiBodyIsScanned(enc, xml, false, text, b, e);
    } else {
      TargetEdges(enc, xml, text, e + 1);
    }
  }

  lemma {:induction false} InstructionIsGood(enc: Encoding, text: seq<Byte>, ptr: nat)
    returns (target: seq<Byte>, blank: seq<Byte>, body: seq<Byte>)
    requires ptr <= |text| && Scan(enc, PiStart, text, ptr).Token?
    ensures AllowedTarget(enc, target) && |blank| <= 1 && Blanks(blank) && PiChars(body) && (blank == [] ==> body == [])
    ensures var r := Scan(enc, PiStart, text, ptr);
            && r.kind == InstructionKind(target) && ptr <= r.next <= |text|
            && text[ptr..r.next] == target + (blank + (body + [0x3f, 0x3e]))
  {
    hide Scan;
    hide StartChar;
    hide CheckName;
    hide CheckNmstrt;
    hide IsName;
    hide IsReserved;
    hide PiChars;
    var t := TargetIsGood(enc, text, ptr);
    target := text[ptr..t];
    blank, body := DataIsGood(enc, text, ptr, t);
    JoinParts(text, ptr, t, Scan(enc, PiStart, text, ptr).next);
  }

  lemma {:induction false} DataIsGood(enc: Encoding, text: seq<Byte>, target: nat, ptr: nat)
    returns (blank: seq<Byte>, body: seq<Byte>)
    requires target <= ptr < |text| && !CheckName(enc, text, ptr).Go? && Scan(enc, PiName(target), text, ptr).Token?
    ensures |blank| <= 1 && Blanks(blank) && PiChars(body) && (blank == [] ==> body == [])
    ensures var r, name := Scan(enc, PiName(target), text, ptr), text[target..ptr];
            && (IsReserved(name) ==> name == XML) && r.kind == InstructionKind(name)
            && ptr <= r.next <= |text| && text[ptr..r.next] == blank + (body + [0x3f, 0x3e])
  {
    hide Scan;
    hide CheckName;
    hide CheckNmstrt;
    hide StartChar;
    hide IsReserved;
    hide PiChars;
    TargetEndStep(enc, target, text, ptr);
    var r, xml := Scan(enc, PiName(target), text, ptr), text[target..ptr] == XML;
    if IsBlank(text[ptr]) {
      PiBodyIsGood(enc, xml, false, text, ptr + 1);
      blank, body := text[ptr..ptr + 1], text[ptr + 1..r.next - 2];
      assert text[r.next - 2..r.next] == [0x3f, 0x3e];
      JoinParts(text, ptr + 1, r.next - 2, r.next);
      JoinParts(text, ptr, ptr + 1, r.next);
    } else {
      NothingAtTheEnd(enc, PiNameQuest(xml), text);
      TargetEdges(enc, xml, text, ptr + 1);
      blank, body := [], [];
      NoPiChars(text, ptr);
      assert text[ptr..r.next] == [0x3f, 0x3e];
      assert blank + (body + [0x3f, 0x3e]) == [0x3f, 0x3e];
    }
  }

  lemma {:induction false} TargetIsGood(enc: Encoding, text: seq<Byte>, ptr: nat) returns (end: nat)
    requires ptr <= |text| && Scan(enc, PiStart, text, ptr).Token?
    ensures ptr < end < |text| && IsName(enc, text[ptr..end]) && !CheckName(enc, text, end).Go?
    ensures Scan(enc, PiStart, text, ptr) == Scan(enc, PiName(ptr), text, end)
  {
    hide Scan;
    hide StartChar;
    hide CheckName;
    hide CheckNmstrt;
    hide IsName;
    hide NameEnds;
    NothingAtTheEnd(enc, PiStart, text);
    TargetEdges(enc, false, text, ptr);
    var from := ptr + LeadLength(text[ptr]);
    end := NameEnds(enc, text, from);
    NameEndsIs(enc, text, from);
    NameCharsAreSkipped(enc, PiName(ptr), text, from, end);
    NothingAtTheEnd(enc, PiName(ptr), text);
    NameIsWhole(enc, text, ptr, from, end);
  }

  // ----- comments and sections behind "<!" -----

  const SECTION_OPEN: seq<Byte> := [0x21, 0x5b, 0x43, 0x44, 0x41, 0x54, 0x41, 0x5b]

  lemma {:induction false} ExclStep(enc: Encoding, text: seq<Byte>, ptr: nat)
    requires ptr < |text|
    ensures var r := Scan(enc, AfterExcl, text, ptr);
            if text[ptr] == 0x2d then r == Scan(enc, CommentOpen, text, ptr + 1)
            else if text[ptr] == 0x5b then r == Scan(enc, CdataOpen, text, ptr + 1)
            else !r.Token?
    ensures var r := Scan(enc, CommentOpen, text, ptr);
            if text[ptr] == 0x2d then r == Scan(enc, CommentBody, text, ptr + 1) else !r.Token?
  {
    hide Scan;
    ScanStep(enc, AfterExcl, text, ptr);
    ScanStep(enc, CommentOpen, text, ptr);
    TypesOfMarkup(enc, text[ptr]);
    hide TypeOf;
    hide CheckChar;
  }

  lemma {:induction false} MismatchIsSix(text: seq<Byte>, ptr: nat, i: nat)
    requires i <= 6 && ptr + 6 <= |text|
    ensures Mismatch(text, ptr, i) == 6 <==> forall k | i <= k < 6 :: text[ptr + k] == [0x43, 0x44, 0x41, 0x54, 0x41, 0x5b][k]
    decreases 6 - i
  {
    if i < 6 {
      MismatchIsSix(text, ptr, i + 1);
    }
  }

  lemma {:induction false} SectionStep(enc: Encoding, text: seq<Byte>, ptr: nat)
    requires ptr <= |text|
    ensures if ptr + 6 <= |text| && text[ptr..ptr + 6] == [0x43, 0x44, 0x41, 0x54, 0x41, 0x5b] then
              Scan(enc, CdataOpen, text, ptr) == Token(CdataSectOpen, ptr + 6)
            else !Scan(enc, CdataOpen, text, ptr).Token?
  {
    hide Scan;
    hide Mismatch;
    ScanStep(enc, CdataOpen, text, ptr);
    if ptr + 6 <= |text| {
      MismatchIsSix(text, ptr, 0);
      var s := text[ptr..ptr + 6];
      assert forall k | 0 <= k < 6 :: s[k] == text[ptr + k];
    }
  }

  // ----- everything behind '<' -----

  /** Markup behind '<': what it is, and its parts. */
  datatype Markup =
    | Element(tag: Tag)
    | End(name: seq<Byte>, gap: seq<Byte>)
    | Note(body: seq<Byte>)
    | Instruction(target: seq<Byte>, blank: seq<Byte>, data: seq<Byte>)
    | Section

  ghost predicate GoodMarkup(enc: Encoding, m: Markup) {
    match m
    case Element(tag) => GoodTag(enc, tag)
    case End(name, gap) => ClosingName(enc, name) && Blanks(gap)
    case Note(body) => CommentChars(body)
    case Instruction(target, blank, data) =>
      AllowedTarget(enc, target) && |blank| <= 1 && Blanks(blank) && PiChars(data) && (blank == [] ==> data == [])
    case Section => true
  }

  function MarkupText(m: Markup): seq<Byte> {
    match m
    case Element(tag) => TagText(tag)
    case End(name, gap) => [0x2f] + (name + (gap + [0x3e]))
    case Note(body) => COMMENT_OPEN + (body + COMMENT_CLOSE)
    case Instruction(target, blank, data) => [0x3f] + (target + (blank + (data + [0x3f, 0x3e])))
    case Section => SECTION_OPEN
  }

  function MarkupKind(m: Markup): Kind {
    match m
    case Element(tag) => TagKind(tag.atts != [], tag.empty)
    case End(_, _) => EndTag
    case Note(_) => Comment
    case Instruction(target, _, _) => InstructionKind(target)
    case Section => CdataSectOpen
  }

  /** What '<' leads to. */
  lemma {:induction false} FirstStep(enc: Encoding, text: seq<Byte>, ptr: nat)
    requires ptr < |text|
    ensures var r, n := Scan(enc, AfterLt, text, ptr), LeadLength(text[ptr]);
            if text[ptr] == 0x21 then r == Scan(enc, AfterExcl, text, ptr + 1)
            else if text[ptr] == 0x3f then r == Scan(enc, PiStart, text, ptr + 1)
            else if text[ptr] == 0x2f then r == Scan(enc, EndStart, text, ptr + 1)
            else if ptr + n <= |text| && StartChar(enc, text[ptr..ptr + n]) then
              r == Scan(enc, StartName(false), text, ptr + n)
            else !r.Token?
  {
    hide Scan;
    hide CheckNmstrt;
    hide StartChar;
    ScanStep(enc, AfterLt, text, ptr);
    NameCharIsChecked(enc, text, ptr);
    CharSettled(enc, text, [], ptr);
    TypesOfMarkup(enc, text[ptr]);
    EndsNoName(enc, text, ptr);
    ExclIsNoName(enc, text, ptr);
    hide TypeOf;
  }

  lemma {:induction false} ExclIsNoName(enc: Encoding, text: seq<Byte>, ptr: nat)
    requires ptr < |text|
    ensures text[ptr] == 0x21 ==> CheckNmstrt(enc, text, ptr).NoMatch?
  {
  }

  lemma {:induction false} CommentIsScanned(enc: Encoding, text: seq<Byte>, ptr: nat, end: nat, body: seq<Byte>)
    requires ptr <= end <= |text| && CommentChars(body) && text[ptr..end] == COMMENT_OPEN + (body + COMMENT_CLOSE)
    ensures Scan(enc, AfterLt, text, ptr) == Token(Comment, end)
  {
    hide Scan;
    hide CommentChars;
    TakePart(text, ptr, end, COMMENT_OPEN, body + COMMENT_CLOSE);
    var o := text[ptr..ptr + 3];
    assert o[0] == text[ptr] && o[1] == text[ptr + 1] && o[2] == text[ptr + 2];
    FirstStep(enc, text, ptr);
    ExclStep(enc, text, ptr + 1);
    ExclStep(enc, text, ptr + 2);
    TakePart(text, ptr + 3, end, body, COMMENT_CLOSE);
    BodyIsScanned(enc, false, text, ptr + 3, end - 3);
  }

  lemma {:induction false} SectionIsScanned(enc: Encoding, text: seq<Byte>, ptr: nat, end: nat)
    requires ptr <= end <= |text| && text[ptr..end] == SECTION_OPEN
    ensures Scan(enc, AfterLt, text, ptr) == Token(CdataSectOpen, end)
  {
    hide Scan;
    var s := text[ptr..end];
    assert s[0] == text[ptr] && s[1] == text[ptr + 1];
    Part(text, ptr, end, 2, 8);
    FirstStep(enc, text, ptr);
    ExclStep(enc, text, ptr + 1);
    SectionStep(enc, text, ptr + 2);
  }

  /** Markup of the grammar is scanned to its end, and to no other place. */
  lemma {:induction false} MarkupIsScanned(enc: Encoding, text: seq<Byte>, ptr: nat, end: nat, m: Markup)
    requires ptr <= end <= |text| && GoodMarkup(enc, m) && text[ptr..end] == MarkupText(m)
    ensures Scan(enc, AfterLt, text, ptr) == Token(MarkupKind(m), end)
  {
    hide Scan;
    hide GoodTag;
    hide TagText;
    hide ClosingName;
    hide CommentChars;
    hide AllowedTarget;
    hide PiChars;
    hide StartChar;
    match m
    case Element(tag) => TagIsScanned(enc, text, ptr, end, tag);
    case End(name, gap) =>
      TakePart(text, ptr, end, [0x2f], name + (gap + [0x3e]));
      FirstStep(enc, text, ptr);
      EndTagIsScanned(enc, text, ptr + 1, end, name, gap);
    case Note(body) => CommentIsScanned(enc, text, ptr, end, body);
    case Instruction(target, blank, data) =>
      TakePart(text, ptr, end, [0x3f], target + (blank + (data + [0x3f, 0x3e])));
      FirstStep(enc, text, ptr);
      InstructionIsScanned(enc, text, ptr + 1, end, target, blank, data);
    case Section => SectionIsScanned(enc, text, ptr, end);
  }

  lemma {:induction false} TagIsGood(enc: Encoding, text: seq<Byte>, ptr: nat) returns (t: Tag)
    requires ptr < |text| && ptr + LeadLength(text[ptr]) <= |text| && StartChar(enc, text[ptr..ptr + LeadLength(text[ptr])])
    requires Scan(enc, StartName(false), text, ptr + LeadLength(text[ptr])).Token?
    ensures var r := Scan(enc, StartName(false), text, ptr + LeadLength(text[ptr]));
            && ptr <= r.next <= |text| && GoodTag(enc, t) && text[ptr..r.next] == TagText(t)
            && r.kind == TagKind(t.atts != [], t.empty)
  {
    hide Scan;
    hide StartChar;
    hide IsQName;
    hide QName;
    hide CheckName;
    hide GoodAtts;
    hide AttsText;
    hide TagEnd;
    var r := Scan(enc, StartName(false), text, ptr + LeadLength(text[ptr]));
    var prefix, local, end := QNameIsGood(enc, false, text, ptr);
    var atts, gap, empty := AttsAreGood(enc, false, prefix != [], text, end);
    t := Tag(prefix, local, atts, gap, empty);
    JoinParts(text, ptr, end, r.next);
  }

  /** What stands behind "<!" in accepted content: a comment, or a section opens. */
  lemma {:induction false} ExclIsGood(enc: Encoding, text: seq<Byte>, ptr: nat) returns (m: Markup)
    requires ptr < |text| && text[ptr] == 0x21 && Scan(enc, AfterExcl, text, ptr + 1).Token?
    ensures var r := Scan(enc, AfterExcl, text, ptr + 1);
            && GoodMarkup(enc, m) && ptr <= r.next <= |text| && text[ptr..r.next] == MarkupText(m)
            && r.kind == MarkupKind(m)
  {
    hide Scan;
    hide CommentChars;
    NothingAtTheEnd(enc, AfterExcl, text);
    ExclStep(enc, text, ptr + 1);
    if text[ptr + 1] == 0x2d {
      var body := CommentIsGood(enc, text, ptr);
      m := Note(body);
    } else {
      SectionStep(enc, text, ptr + 2);
      m := Section;
      assert text[ptr..ptr + 2] == [0x21, 0x5b];
      JoinParts(text, ptr, ptr + 2, ptr + 8);
    }
  }

  lemma {:induction false} CommentIsGood(enc: Encoding, text: seq<Byte>, ptr: nat) returns (body: seq<Byte>)
    requires ptr + 2 <= |text| && text[ptr] == 0x21 && text[ptr + 1] == 0x2d && Scan(enc, CommentOpen, text, ptr + 2).Token?
    ensures var r := Scan(enc, CommentOpen, text, ptr + 2);
            && r.kind.Comment? && ptr <= r.next <= |text| && CommentChars(body)
            && text[ptr..r.next] == COMMENT_OPEN + (body + COMMENT_CLOSE)
  {
    hide Scan;
    hide CommentChars;
    var next := Scan(enc, CommentOpen, text, ptr + 2).next;
    NothingAtTheEnd(enc, CommentOpen, text);
    ExclStep(enc, text, ptr + 2);
    BodyIsGood(enc, false, text, ptr + 3);
    body := text[ptr + 3..next - 3];
    assert text[ptr..ptr + 3] == COMMENT_OPEN;
    JoinParts(text, ptr + 3, next - 3, next);
    JoinParts(text, ptr, ptr + 3, next);
  }

  /** Whatever is accepted behind '<' is markup of the grammar. */
  lemma {:induction false} MarkupIsGood(enc: Encoding, text: seq<Byte>, ptr: nat) returns (m: Markup)
    requires ptr <= |text| && Scan(enc, AfterLt, text, ptr).Token?
    ensures var r := Scan(enc, AfterLt, text, ptr);
            && GoodMarkup(enc, m) && ptr <= r.next <= |text| && text[ptr..r.next] == MarkupText(m)
            && r.kind == MarkupKind(m)
  {
    hide Scan;
    hide StartChar;
    hide GoodTag;
    hide TagText;
    hide ClosingName;
    hide AllowedTarget;
    hide PiChars;
    var r := Scan(enc, AfterLt, text, ptr);
    NothingAtTheEnd(enc, AfterLt, text);
    FirstStep(enc, text, ptr);
    assert text[ptr..ptr + 1] == [text[ptr]];
    if text[ptr] == 0x21 {
      m := ExclIsGood(enc, text, ptr);
    } else if text[ptr] == 0x3f {
      var target, blank, data := InstructionIsGood(enc, text, ptr + 1);
      m := Instruction(target, blank, data);
      JoinParts(text, ptr, ptr + 1, r.next);
    } else if text[ptr] == 0x2f {
      var name, gap := EndTagIsGood(enc, text, ptr + 1);
      m := End(name, gap);
      JoinParts(text, ptr, ptr + 1, r.next);
    } else {
      var tag := TagIsGood(enc, text, ptr);
      m := Element(tag);
    }
  }

  /** This text is markup of this kind. */
  ghost predicate IsMarkup(enc: Encoding, text: seq<Byte>, kind: Kind) {
    exists m :: GoodMarkup(enc, m) && MarkupText(m) == text && MarkupKind(m) == kind
  }

  /** The scanners behind '<' find a token exactly where the grammar has markup, of its kind and with its end. */
  lemma {:induction false} MarkupIsExact(enc: Encoding, text: seq<Byte>, ptr: nat, kind: Kind, next: nat)
    requires ptr <= |text|
    ensures Scan(enc, AfterLt, text, ptr) == Token(kind, next) <==>
            ptr <= next <= |text| && IsMarkup(enc, text[ptr..next], kind)
  {
    hide Scan;
    hide GoodMarkup;
    hide MarkupText;
    hide MarkupKind;
    if Scan(enc, AfterLt, text, ptr) == Token(kind, next) {
      var m := MarkupIsGood(enc, text, ptr);
    }
    if ptr <= next <= |text| && IsMarkup(enc, text[ptr..next], kind) {
      var m :| GoodMarkup(enc, m) && MarkupText(m) == text[ptr..next] && MarkupKind(m) == kind;
      MarkupIsScanned(enc, text, ptr, next, m);
    }
  }
}
