/** The attributes of a printed tag: getAtts finds as many as were printed, each with the place of its
    name and of its value. */
module TagAttributes {
  import opened Bytes
  import opened MarkupMachine
  import opened Names
  import opened StartTags
  import S = StartTags
  import M = MarkupGrammar
  import G = TagGrammar

  /** getAtts from here to the end of the tag. */
  function ReadAll(enc: Encoding, r: Reader, text: seq<Byte>, ptr: nat): Reader
    decreases |text| - ptr
  {
    if ptr + 1 >= |text| || EndsTag(TypeOf(enc, text[ptr]), r) || ptr + Width(TypeOf(enc, text[ptr])) > |text| then r
    else ReadAll(enc, Read(enc, r, text, ptr), text, ptr + Width(TypeOf(enc, text[ptr])))
  }

  // ----- getAtts collects what it has read -----

  lemma {:induction false} ReadsCollected(enc: Encoding, text: seq<Byte>, s: State, ptr: nat, name: nat, value: nat,
                                          done: seq<Attribute>, all: seq<Attribute>, r: Reader)
    requires ptr < |text| && InTag(s) && Accepted(enc, s, text, ptr)
    requires Together(enc, text, s, ptr, name, value, r) && Filled(done, r)
    requires all == done + Collected(enc, s, text, ptr, name, value)
    ensures Filled(all, ReadAll(enc, r, text, ptr))
    decreases |text| - ptr
  {
    hide StaysTogether;
    hide Collected;
    hide Step;
    hide TypeOf;
    hide Accepted;
    hide Together;
    hide Filled;
    hide Read;
    var m := TagStep(enc, text, s, ptr, name, value, done, r);
    if EndsTag(TypeOf(enc, text[ptr]), r) {
      assert done + [] == done;
    } else {
      var newName, newValue, newDone := Onward(enc, text, s, ptr, name, value, done, all, r, m);
      ReadsCollected(enc, text, m.state, m.ptr, newName, newValue, newDone, all, Read(enc, r, text, ptr));
    }
  }

  // ----- reading a printed tag -----

  /** Everything but the flags of the slots. */
  predicate SamePlaces(r: Reader, q: Reader) {
    && q.n == r.n && |q.slots| == |r.slots|
    && forall k | 0 <= k < |r.slots| :: SamePlace(r.slots[k], q.slots[k])
  }

  predicate SamePlace(a: Attribute, b: Attribute) {
    b.name == a.name && b.valuePtr == a.valuePtr && b.valueEnd == a.valueEnd
  }

  /** Complete characters, none of which begins with the quote. */
  predicate WholeChars(s: seq<Byte>, quote: Byte)
    decreases |s|
  {
    |s| == 0 || (s[0] != quote && LeadLength(s[0]) <= |s| && WholeChars(s[LeadLength(s[0])..], quote))
  }

  lemma {:induction false} WholeJoins(a: seq<Byte>, b: seq<Byte>, quote: Byte)
    requires WholeChars(a, quote) && WholeChars(b, quote)
    ensures WholeChars(a + b, quote)
    decreases |a|
  {
    if |a| == 0 {
      assert a + b == b;
    } else {
      WholeJoins(a[LeadLength(a[0])..], b, quote);
      assert (a + b)[LeadLength(a[0])..] == a[LeadLength(a[0])..] + b;
    }
  }

  lemma {:induction false} AsciiIsWhole(s: seq<Byte>, quote: Byte)
    requires forall i | 0 <= i < |s| :: s[i] < 0x80 && s[i] != quote
    ensures WholeChars(s, quote)
    decreases |s|
  {
    if |s| > 0 {
      AsciiIsWhole(s[1..], quote);
    }
  }

  lemma {:induction false} NameIsWhole(enc: Encoding, s: seq<Byte>, quote: Byte)
    requires quote in {0x22, 0x27} && (NameChars(enc, s) || IsName(enc, s))
    ensures WholeChars(s, quote)
    decreases |s|
  {
    if |s| > 0 {
      NameIsWhole(enc, s[LeadLength(s[0])..], quote);
    }
  }

  lemma {:induction false} RefIsWhole(enc: Encoding, kind: Kind, r: seq<Byte>, quote: Byte)
    requires quote in {0x22, 0x27} && M.IsRef(enc, kind, r)
    ensures WholeChars([0x26] + r, quote)
  {
    if kind == EntityRef && M.IsNameRef(enc, r) {
      var name := r[..|r| - 1];
      NameIsWhole(enc, name, quote);
      AsciiIsWhole([0x26], quote);
      AsciiIsWhole([0x3b], quote);
      WholeJoins([0x26], name, quote);
      WholeJoins([0x26] + name, [0x3b], quote);
      assert [0x26] + name + [0x3b] == [0x26] + r;
    } else {
      NumberIsAscii(r);
      AsciiIsWhole([0x26] + r, quote);
    }
  }

  lemma {:induction false} NumberIsAscii(r: seq<Byte>)
    requires M.IsNumberRef(r)
    ensures forall i | 0 <= i < |r| :: r[i] < 0x80 && r[i] != 0x22 && r[i] != 0x27
  {
    if M.AllDigits(false, r[1..|r| - 1]) {
      forall i | 0 < i < |r| - 1
        ensures IsDecimal(r[i])
      {
        assert r[i] == r[1..|r| - 1][i - 1];
      }
    } else {
      forall i | 1 < i < |r| - 1
        ensures M.IsHexDigit(r[i])
      {
        assert r[i] == r[2..|r| - 1][i - 2];
      }
    }
  }

  lemma {:induction false} ValueIsWhole(enc: Encoding, quot: bool, v: seq<Byte>)
    requires M.ValueChars(enc, quot, v)
    ensures WholeChars(v, M.QuoteByte(quot))
    decreases |v|
  {
    hide M.IsRef;
    if |v| > 0 {
      if M.PlainInValue(v, quot) && M.ValueChars(enc, quot, v[LeadLength(v[0])..]) {
        ValueIsWhole(enc, quot, v[LeadLength(v[0])..]);
      } else {
        var n: nat, kind :| M.ValueRef(enc, v, n, kind) && M.ValueChars(enc, quot, v[n..]);
        RefIsWhole(enc, kind, v[1..n], M.QuoteByte(quot));
        ValueIsWhole(enc, quot, v[n..]);
        WholeJoins([0x26] + v[1..n], v[n..], M.QuoteByte(quot));
        assert v == ([0x26] + v[1..n]) + v[n..];
      }
    }
  }

  /** One character inside a value that does not close it. */
  lemma {:induction false} OneInValue(enc: Encoding, r: Reader, text: seq<Byte>, ptr: nat) returns (q: Reader)
    requires ptr + 1 < |text| && ptr + LeadLength(text[ptr]) <= |text|
    requires r.mode.InsideValue? && text[ptr] != M.QuoteByte(r.quot)
    ensures q.mode.InsideValue? && q.quot == r.quot && SamePlaces(r, q)
    ensures ReadAll(enc, r, text, ptr) == ReadAll(enc, q, text, ptr + LeadLength(text[ptr]))
  {
    TypesOfMarkup(enc, text[ptr]);
    TypesOfCharacters(enc, text[ptr]);
    hide TypeOf;
    hide Touched;
    q := Read(enc, r, text, ptr);
  }

  lemma {:induction false} ValueIsRead(enc: Encoding, r: Reader, text: seq<Byte>, ptr: nat, end: nat) returns (q: Reader)
    requires ptr <= end < |text| && r.mode.InsideValue? && WholeChars(text[ptr..end], M.QuoteByte(r.quot))
    ensures q.mode.InsideValue? && q.quot == r.quot && SamePlaces(r, q)
    ensures ReadAll(enc, r, text, ptr) == ReadAll(enc, q, text, end)
    decreases end - ptr
  {
    hide ReadAll;
    q := r;
    if ptr < end {
      var n, s := LeadLength(text[ptr]), text[ptr..end];
      assert s[0] == text[ptr] && s[n..] == text[ptr + n..end];
      var mid := OneInValue(enc, r, text, ptr);
      q := ValueIsRead(enc, mid, text, ptr + n, end);
    }
  }

  /** A character of a name, or a colon, while a name is read. */
  lemma {:induction false} OneInName(enc: Encoding, r: Reader, text: seq<Byte>, ptr: nat)
    requires ptr + 1 < |text| && ptr + LeadLength(text[ptr]) <= |text| && r.mode.InsideName?
    requires var c := text[ptr..ptr + LeadLength(text[ptr])]; NameChar(enc, c) || StartChar(enc, c) || c == [0x3a]
    ensures ReadAll(enc, r, text, ptr) == ReadAll(enc, r, text, ptr + LeadLength(text[ptr]))
  {
    TypesOfMarkup(enc, text[ptr]);
    TypesOfCharacters(enc, text[ptr]);
    NoMarkupInName(enc, text, ptr);
    hide NameChar;
    hide StartChar;
    hide TypeOf;
  }

  lemma {:induction false} NoMarkupInName(enc: Encoding, text: seq<Byte>, ptr: nat)
    requires ptr < |text| && ptr + LeadLength(text[ptr]) <= |text|
    requires var c := text[ptr..ptr + LeadLength(text[ptr])]; NameChar(enc, c) || StartChar(enc, c) || c == [0x3a]
    ensures !IsBlank(text[ptr]) && text[ptr] !in {0x22, 0x27, 0x26, 0x3e, 0x2f, 0x3d}
  {
    assert text[ptr] == text[ptr..ptr + LeadLength(text[ptr])][0];
  }

  lemma {:induction false} NameCharsAreRead(enc: Encoding, r: Reader, text: seq<Byte>, ptr: nat, end: nat)
    requires ptr <= end < |text| && r.mode.InsideName? && NameChars(enc, text[ptr..end])
    ensures ReadAll(enc, r, text, ptr) == ReadAll(enc, r, text, end)
    decreases end - ptr
  {
    hide ReadAll;
    hide NameChar;
    if ptr < end {
      var n, s := LeadLength(text[ptr]), text[ptr..end];
      assert s[0] == text[ptr] && s[..n] == text[ptr..ptr + n] && s[n..] == text[ptr + n..end];
      OneInName(enc, r, text, ptr);
      NameCharsAreRead(enc, r, text, ptr + n, end);
    }
  }

  lemma {:induction false} NameIsRead(enc: Encoding, r: Reader, text: seq<Byte>, ptr: nat, end: nat)
    requires ptr <= end < |text| && r.mode.InsideName? && IsName(enc, text[ptr..end])
    ensures ReadAll(enc, r, text, ptr) == ReadAll(enc, r, text, end)
  {
    hide ReadAll;
    hide CheckNmstrt;
    M.NameBegins(enc, text, ptr, end);
    hide StartChar;
    hide IsName;
    OneInName(enc, r, text, ptr);
    NameCharsAreRead(enc, r, text, ptr + LeadLength(text[ptr]), end);
  }

  lemma {:induction false} QNameIsRead(enc: Encoding, r: Reader, text: seq<Byte>, ptr: nat, end: nat,
                                       prefix: seq<Byte>, local: seq<Byte>)
    requires ptr <= end < |text| && r.mode.InsideName?
    requires IsQName(enc, prefix, local) && text[ptr..end] == QName(prefix, local)
    ensures ReadAll(enc, r, text, ptr) == ReadAll(enc, r, text, end)
  {
    hide ReadAll;
    hide IsName;
    if prefix == [] {
      NameIsRead(enc, r, text, ptr, end);
    } else {
      assert QName(prefix, local) == prefix + ([0x3a] + local);
      G.TakePart(text, ptr, end, prefix, [0x3a] + local);
      var colon := ptr + |prefix|;
      G.TakePart(text, colon, end, [0x3a], local);
      NameIsRead(enc, r, text, ptr, colon);
      OneInName(enc, r, text, colon);
      NameIsRead(enc, r, text, colon + 1, end);
    }
  }

  /** The first character of a name. */
  lemma {:induction false} NameStarts(enc: Encoding, r: Reader, text: seq<Byte>, ptr: nat)
    requires ptr + 1 < |text| && ptr + LeadLength(text[ptr]) <= |text| && r.mode.Elsewhere?
    requires StartChar(enc, text[ptr..ptr + LeadLength(text[ptr])])
    ensures ReadAll(enc, r, text, ptr) == ReadAll(enc, S.StartName(r, ptr), text, ptr)
  {
    TypesOfMarkup(enc, text[ptr]);
    TypesOfCharacters(enc, text[ptr]);
    NoMarkupInName(enc, text, ptr);
    StartTypes(enc, text, ptr);
    hide NameChar;
    hide StartChar;
    hide TypeOf;
  }

  lemma {:induction false} StartTypes(enc: Encoding, text: seq<Byte>, ptr: nat)
    requires ptr < |text| && ptr + LeadLength(text[ptr]) <= |text|
    requires StartChar(enc, text[ptr..ptr + LeadLength(text[ptr])])
    ensures var t := TypeOf(enc, text[ptr]); IsLead(t) || t.NmStrt? || t.Hex?
  {
  }

  // ----- blanks, '=' and quotes -----

  lemma {:induction false} BlanksAreRead(enc: Encoding, r: Reader, text: seq<Byte>, ptr: nat, end: nat) returns (q: Reader)
    requires ptr <= end < |text| && !r.mode.InsideValue? && Blanks(text[ptr..end])
    ensures !q.mode.InsideValue? && q == r.(mode := q.mode) && (ptr < end || r.mode.Elsewhere? ==> q.mode.Elsewhere?)
    ensures ReadAll(enc, r, text, ptr) == ReadAll(enc, q, text, end)
    decreases end - ptr
  {
    q := r;
    if ptr < end {
      assert text[ptr..end][0] == text[ptr] && text[ptr..end][1..] == text[ptr + 1..end];
      TypesOfMarkup(enc, text[ptr]);
      TypesOfCharacters(enc, text[ptr]);
      hide TypeOf;
      q := BlanksAreRead(enc, r.(mode := Elsewhere), text, ptr + 1, end);
    }
  }

  lemma {:induction false} EqualsIsRead(enc: Encoding, r: Reader, text: seq<Byte>, ptr: nat)
    requires ptr + 1 < |text| && text[ptr] == 0x3d && !r.mode.InsideValue?
    ensures ReadAll(enc, r, text, ptr) == ReadAll(enc, r, text, ptr + 1)
  {
  }

  lemma {:induction false} QuoteIsRead(enc: Encoding, r: Reader, text: seq<Byte>, ptr: nat, quot: bool)
    requires ptr + 1 < |text| && text[ptr] == M.QuoteByte(quot)
    ensures ReadAll(enc, r, text, ptr) == ReadAll(enc, Quote(r, ptr, quot), text, ptr + 1)
  {
    hide Quote;
  }

  // ----- attributes -----

  /** The name and the value stand at these places. */
  predicate Shows(text: seq<Byte>, a: Attribute, att: G.Att) {
    var name := QName(att.prefix, att.local);
    && a.name + |name| <= |text| && text[a.name..a.name + |name|] == name
    && a.valuePtr <= a.valueEnd <= |text| && text[a.valuePtr..a.valueEnd] == att.value
  }

  /** One more attribute, in slot n; the other slots keep their places. */
  predicate OneMore(text: seq<Byte>, r: Reader, q: Reader, att: G.Att) {
    && q.n == r.n + 1 && |q.slots| == |r.slots|
    && (forall k | 0 <= k < |r.slots| && k != r.n :: SamePlace(r.slots[k], q.slots[k]))
    && (r.n < |r.slots| ==> Shows(text, q.slots[r.n], att))
  }

  lemma {:induction false} AttIsRead(enc: Encoding, r: Reader, text: seq<Byte>, ptr: nat, end: nat, a: G.Att)
    returns (q: Reader)
    requires ptr <= end < |text| && !r.mode.InsideValue? && G.GoodAtt(enc, a) && text[ptr..end] == G.AttText(a)
    ensures q.mode.Elsewhere? && OneMore(text, r, q, a)
    ensures ReadAll(enc, r, text, ptr) == ReadAll(enc, q, text, end)
  {
    hide ReadAll;
    hide IsQName;
    hide QName;
    hide M.ValueChars;
    hide G.AttText;
    hide M.QuoteByte;
    hide S.StartName;
    hide Quote;
    var name, before, equals, quote := G.AttParts(text, ptr, end, a);
    var gone := BlanksAreRead(enc, r, text, ptr, name);
    NameBegun(enc, text, name, before, a);
    NameStarts(enc, gone, text, name);
    StartsName(gone, name);
    var named := S.StartName(gone, name);
    QNameIsRead(enc, named, text, name, before, a.prefix, a.local);
    var r2 := BlanksAreRead(enc, named, text, before, equals);
    EqualsIsRead(enc, r2, text, equals);
    var r3 := BlanksAreRead(enc, r2, text, equals + 1, quote);
    QuoteIsRead(enc, r3, text, quote, a.quot);
    OpensValue(r3, quote, a.quot);
    ValueIsWhole(enc, a.quot, a.value);
    var r4 := ValueIsRead(enc, Quote(r3, quote, a.quot), text, quote + 1, end - 1);
    QuoteIsRead(enc, r4, text, end - 1, a.quot);
    q := Quote(r4, end - 1, a.quot);
    SlotIsFilled(text, r, name, before, quote, end, a, named, r3, r4);
  }

  lemma {:induction false} NameBegun(enc: Encoding, text: seq<Byte>, name: nat, before: nat, a: G.Att)
    requires name <= before < |text| && IsQName(enc, a.prefix, a.local) && text[name..before] == QName(a.prefix, a.local)
    ensures name + LeadLength(text[name]) <= before && StartChar(enc, text[name..name + LeadLength(text[name])])
  {
    hide StartChar;
    hide CheckNmstrt;
    if a.prefix == [] {
      M.NameBegins(enc, text, name, before);
    } else {
      assert QName(a.prefix, a.local) == a.prefix + ([0x3a] + a.local);
      G.TakePart(text, name, before, a.prefix, [0x3a] + a.local);
      M.NameBegins(enc, text, name, name + |a.prefix|);
    }
  }

  lemma {:induction false} StartsName(r: Reader, ptr: nat)
    requires r.mode.Elsewhere?
    ensures var q := S.StartName(r, ptr);
            && q.mode.InsideName? && q.n == r.n && |q.slots| == |r.slots|
            && (forall k | 0 <= k < |r.slots| && k != r.n :: q.slots[k] == r.slots[k])
            && (r.n < |r.slots| ==> q.slots[r.n].name == ptr)
  {
  }

  lemma {:induction false} OpensValue(r: Reader, ptr: nat, quot: bool)
    requires !r.mode.InsideValue?
    ensures var q := Quote(r, ptr, quot);
            && q.mode.InsideValue? && q.quot == quot && q.n == r.n && |q.slots| == |r.slots|
            && (forall k | 0 <= k < |r.slots| && k != r.n :: q.slots[k] == r.slots[k])
            && (r.n < |r.slots| ==> q.slots[r.n].name == r.slots[r.n].name && q.slots[r.n].valuePtr == ptr + 1)
  {
  }

  lemma {:induction false} SlotIsFilled(text: seq<Byte>, r: Reader, name: nat, before: nat, quote: nat, end: nat, a: G.Att,
                                        named: Reader, r3: Reader, r4: Reader)
    requires name <= before <= quote < end - 1 && end <= |text| && text[name..before] == QName(a.prefix, a.local)
    requires text[quote + 1..end - 1] == a.value
    requires !r.mode.InsideValue? && named == S.StartName(r.(mode := Elsewhere), name)
    requires !r3.mode.InsideValue? && r3 == named.(mode := r3.mode)
    requires SamePlaces(Quote(r3, quote, a.quot), r4) && r4.mode.InsideValue? && r4.quot == a.quot
    ensures Quote(r4, end - 1, a.quot).mode.Elsewhere? && OneMore(text, r, Quote(r4, end - 1, a.quot), a)
  {
    StartsName(r.(mode := Elsewhere), name);
    hide S.StartName;
    hide QName;
  }

  /** The reader at the end of a tag: its first slots show the attributes. */
  predicate ShowsAll(text: seq<Byte>, r: Reader, q: Reader, list: seq<G.Att>) {
    && q.n == r.n + |list| && |q.slots| == |r.slots|
    && (forall k | 0 <= k < |r.slots| && k < r.n :: SamePlace(r.slots[k], q.slots[k]))
    && (forall i | 0 <= i < |list| && r.n + i < |r.slots| :: Shows(text, q.slots[r.n + i], list[i]))
  }

  lemma {:induction false} AttsAreRead(enc: Encoding, r: Reader, text: seq<Byte>, ptr: nat, end: nat, list: seq<G.Att>,
                                       gap: seq<Byte>, empty: bool)
    requires ptr <= end <= |text| && !r.mode.InsideValue? && G.GoodAtts(enc, list) && Blanks(gap)
    requires text[ptr..end] == G.AttsText(list) + (gap + G.TagEnd(empty))
    ensures ShowsAll(text, r, ReadAll(enc, r, text, ptr), list)
    decreases |list|
  {
    hide ReadAll;
    hide G.GoodAtt;
    hide G.AttText;
    if |list| == 0 {
      assert G.AttsText(list) + (gap + G.TagEnd(empty)) == gap + G.TagEnd(empty);
      G.TakePart(text, ptr, end, gap, G.TagEnd(empty));
      var q := BlanksAreRead(enc, r, text, ptr, ptr + |gap|);
      assert text[ptr + |gap|..end][0] == text[ptr + |gap|];
      ReadingEnds(enc, q, text, ptr + |gap|);
    } else {
      hide G.TagEnd;
      hide OneMore;
      hide ShowsAll;
      var rest := G.AttsText(list[1..]) + (gap + G.TagEnd(empty));
      assert G.AttsText(list) + (gap + G.TagEnd(empty)) == G.AttText(list[0]) + rest;
      G.TakePart(text, ptr, end, G.AttText(list[0]), rest);
      var next := ptr + |G.AttText(list[0])|;
      EndIsThere(list[1..], gap, empty);
      var q := AttIsRead(enc, r, text, ptr, next, list[0]);
      AttsAreRead(enc, q, text, next, end, list[1..], gap, empty);
      ShownMore(text, r, q, ReadAll(enc, q, text, next), list);
    }
  }

  lemma {:induction false} EndIsThere(list: seq<G.Att>, gap: seq<Byte>, empty: bool)
    ensures |G.AttsText(list) + (gap + G.TagEnd(empty))| > 0
  {
    hide G.AttsText;
  }

  lemma {:induction false} ReadingEnds(enc: Encoding, r: Reader, text: seq<Byte>, ptr: nat)
    requires ptr < |text| && (text[ptr] == 0x3e || text[ptr] == 0x2f) && !r.mode.InsideValue?
    ensures ReadAll(enc, r, text, ptr) == r
  {
    TypesOfMarkup(enc, text[ptr]);
    hide TypeOf;
  }

  lemma {:induction false} ShownMore(text: seq<Byte>, r: Reader, q: Reader, f: Reader, list: seq<G.Att>)
    requires |list| > 0 && OneMore(text, r, q, list[0]) && ShowsAll(text, q, f, list[1..])
    ensures ShowsAll(text, r, f, list)
  {
    hide QName;
    forall i | 0 <= i < |list| && r.n + i < |r.slots|
      ensures Shows(text, f.slots[r.n + i], list[i])
    {
      if i == 0 {
        assert SamePlace(q.slots[r.n], f.slots[r.n]);
      } else {
        assert list[1..][i - 1] == list[i];
        assert Shows(text, f.slots[q.n + (i - 1)], list[1..][i - 1]);
      }
    }
    forall k | 0 <= k < |r.slots| && k < r.n
      ensures SamePlace(r.slots[k], f.slots[k])
    {
      assert SamePlace(r.slots[k], q.slots[k]) && SamePlace(q.slots[k], f.slots[k]);
    }
  }

  /**
   * For a printed tag getAtts finds as many attributes as were printed, in order: each with the place
   * of its name and of its value, and marked as normal exactly when the value is.
   */
  lemma {:induction false} AttributesAreFound(enc: Encoding, text: seq<Byte>, start: nat, end: nat, t: G.Tag)
    requires start < end <= |text| && G.GoodTag(enc, t) && text[start + 1..end] == G.TagText(t)
    ensures Accepted(enc, AfterLt, text, start + 1)
    ensures var all := Collected(enc, AfterLt, text, start + 1, 0, 0);
            && |all| == |t.atts|
            && forall i | 0 <= i < |all| :: Shows(text, all[i], t.atts[i])
                                           && all[i].normalized == IsNormal(enc, t.atts[i].value)
  {
    hide Collected;
    hide ReadAll;
    hide Scan;
    hide G.GoodTag;
    hide G.TagText;
    hide IsNormal;
    G.TagIsScanned(enc, text, start + 1, end, t);
    var all := Collected(enc, AfterLt, text, start + 1, 0, 0);
    var r := Reader(InsideName, false, 0, seq(|t.atts|, i => Attribute(0, 0, 0, false)));
    NotAtTheEnd(enc, text, start + 1);
    StartsTogether(enc, text, start + 1, r);
    assert [] + all == all;
    ReadsCollected(enc, text, AfterLt, start + 1, 0, 0, [], all, r);
    TagIsRead(enc, r, text, start + 1, end, t);
    AttributesAreGood(enc, text, start);
    forall i | 0 <= i < |all|
      ensures Shows(text, all[i], t.atts[i]) && all[i].normalized == IsNormal(enc, t.atts[i].value)
    {
      assert GoodAttribute(enc, text, all[i]);
      assert Shows(text, ReadAll(enc, r, text, start + 1).slots[r.n + i], t.atts[i]);
    }
  }

  lemma {:induction false} NotAtTheEnd(enc: Encoding, text: seq<Byte>, ptr: nat)
    requires ptr <= |text| && Accepted(enc, AfterLt, text, ptr)
    ensures ptr < |text|
  {
    AtEndNothing(enc, AfterLt, text, ptr);
  }

  lemma {:induction false} TagIsRead(enc: Encoding, r: Reader, text: seq<Byte>, ptr: nat, end: nat, t: G.Tag)
    requires ptr <= end <= |text| && r.mode.InsideName? && G.GoodTag(enc, t) && text[ptr..end] == G.TagText(t)
    ensures ShowsAll(text, r, ReadAll(enc, r, text, ptr), t.atts)
  {
    hide ReadAll;
    hide IsQName;
    hide QName;
    hide G.GoodAtts;
    hide G.AttsText;
    var rest := G.AttsText(t.atts) + (t.gap + G.TagEnd(t.empty));
    EndIsThere(t.atts, t.gap, t.empty);
    G.TakePart(text, ptr, end, QName(t.prefix, t.local), rest);
    var next := ptr + |QName(t.prefix, t.local)|;
    QNameIsRead(enc, r, text, ptr, next, t.prefix, t.local);
    AttsAreRead(enc, r, text, next, end, t.atts, t.gap, t.empty);
  }
}
