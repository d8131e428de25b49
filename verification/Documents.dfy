/** Whole documents: an element with everything that may stand in it, printed with blanks anywhere, is
    reported piece by piece exactly as it was printed, and the tags the parser follows are its tags. */
module Documents {
  import opened Bytes
  import opened Characters
  import opened MarkupMachine
  import opened ContentRuns
  import opened ContentText
  import opened Names
  import C = CharRefs
  import M = MarkupGrammar
  import G = TagGrammar
  import T = ContentTokens
  import W = TagWords
  import TN = TagNames

  /** What content is made of; `Other` is a comment or an instruction. */
  datatype Item =
    | Text(chars: seq<Char>)
    | Section(chars: seq<Char>)
    | Reference(kind: Kind, bytes: seq<Byte>)
    | Other(markup: G.Markup)
    | Element(tag: G.Tag, content: seq<Item>, gap: seq<Byte>)

  function EndMarkup(tag: G.Tag, gap: seq<Byte>): G.Markup {
    G.End(QName(tag.prefix, tag.local), gap)
  }

  /** Comments, and instructions other than an XML declaration. */
  ghost predicate IsOther(enc: Encoding, m: G.Markup) {
    G.GoodMarkup(enc, m) && (m.Note? || (m.Instruction? && m.target != M.XML))
  }

  ghost predicate GoodItem(enc: Encoding, item: Item)
    decreases item, 0
  {
    match item
    case Text(cs) => IsXmlText(cs) && IsPlain(cs) && NoneCloses(All8(cs), 0, |All8(cs)|)
    case Section(cs) => IsXmlText(cs) && NoneCloses(All8(cs), 0, |All8(cs)|)
    case Reference(kind, bytes) => M.IsRef(enc, kind, bytes) && (kind.CharRef? ==> !BadReference([0x26] + bytes))
    case Other(m) => IsOther(enc, m)
    case Element(tag, content, gap) =>
      && G.GoodTag(enc, tag) && GoodContent(enc, content)
      && if tag.empty then content == [] && gap == [] else G.GoodMarkup(enc, EndMarkup(tag, gap))
  }

  /** Good items, and no text directly behind another one. */
  ghost predicate GoodContent(enc: Encoding, items: seq<Item>)
    decreases items, 1
  {
    && (forall i | 0 <= i < |items| :: GoodItem(enc, items[i]))
    && (forall i | 0 < i < |items| :: !(items[i - 1].Text? && items[i].Text?))
  }

  // ----- as bytes -----

  function MarkupBytes(m: G.Markup): seq<Byte> { [0x3c] + G.MarkupText(m) }

  function SectionBytes(cs: seq<Char>): seq<Byte> { CDATA_OPEN + All8(cs) + CDATA_CLOSE }

  function Print(item: Item): seq<Byte>
    decreases item, 0
  {
    match item
    case Text(cs) => All8(cs)
    case Section(cs) => SectionBytes(cs)
    case Reference(_, bytes) => [0x26] + bytes
    case Other(m) => MarkupBytes(m)
    case Element(tag, content, gap) =>
      MarkupBytes(G.Element(tag)) + if tag.empty then [] else PrintAll(content) + MarkupBytes(EndMarkup(tag, gap))
  }

  function PrintAll(items: seq<Item>): seq<Byte>
    decreases items, 1
  {
    if |items| == 0 then [] else Print(items[0]) + PrintAll(items[1..])
  }

  // ----- as reported -----

  function MarkupEvent(m: G.Markup): Event { Event(G.MarkupKind(m), MarkupBytes(m)) }

  /** What has been reported behind an item. */
  function EventsOf(enc: Encoding, item: Item, events: seq<Event>): seq<Event>
    decreases item, 0
  {
    match item
    case Text(cs) => Lines(enc, cs, events)
    case Section(cs) =>
      Lines(enc, cs, events + [Event(CdataSectOpen, CDATA_OPEN)]) + [Event(CdataSectClose, CDATA_CLOSE)]
    case Reference(kind, bytes) => events + [Event(kind, [0x26] + bytes)]
    case Other(m) => events + [MarkupEvent(m)]
    case Element(tag, content, gap) =>
      var begun := events + [MarkupEvent(G.Element(tag))];
      if tag.empty then begun else EventsOfAll(enc, content, begun) + [MarkupEvent(EndMarkup(tag, gap))]
  }

  function EventsOfAll(enc: Encoding, items: seq<Item>, events: seq<Event>): seq<Event>
    decreases items, 1
  {
    if |items| == 0 then events else EventsOfAll(enc, items[1..], EventsOf(enc, items[0], events))
  }

  // ----- as a tree of elements -----

  function NodesOf(item: Item): seq<W.Node>
    decreases item, 0
  {
    if !item.Element? then []
    else
      var name := QName(item.tag.prefix, item.tag.local);
      [if item.tag.empty then W.EmptyElement(name) else W.Element(name, NodesOfAll(item.content))]
  }

  function NodesOfAll(items: seq<Item>): seq<W.Node>
    decreases items, 1
  {
    if |items| == 0 then [] else NodesOf(items[0]) + NodesOfAll(items[1..])
  }

  // ----- reading one item -----

  lemma {:induction false} Rest(text: seq<Byte>, ptr: nat, first: seq<Byte>, rest: seq<Byte>)
    requires ptr <= |text| && text[ptr..] == first + rest
    ensures ptr + |first| <= |text| && text[ptr..ptr + |first|] == first && text[ptr + |first|..] == rest
    ensures |first| > 0 ==> text[ptr] == first[0]
  {
    Slices(text, ptr, first, rest);
    assert text[ptr..][0..] == text[ptr..];
  }

  /** A name that is opened can be closed. */
  lemma {:induction false} NameCharsClose(enc: Encoding, s: seq<Byte>, rest: seq<Byte>)
    requires NameChars(enc, s) && G.ClosingChars(enc, rest)
    ensures G.ClosingChars(enc, s + rest)
    decreases |s|
  {
    hide NameChar;
    hide G.ClosingChars;
    if |s| == 0 {
      assert s + rest == rest;
    } else {
      var n := LeadLength(s[0]);
      NameCharsClose(enc, s[n..], rest);
      CharCloses(enc, s[..n], s[n..] + rest);
      assert s + rest == s[..n] + (s[n..] + rest);
    }
  }

  lemma {:induction false} CharCloses(enc: Encoding, c: seq<Byte>, rest: seq<Byte>)
    requires |c| > 0 && |c| == LeadLength(c[0]) && NameChar(enc, c) && G.ClosingChars(enc, rest)
    ensures G.ClosingChars(enc, c + rest)
  {
    hide NameChar;
    assert (c + rest)[..|c|] == c && (c + rest)[|c|..] == rest;
  }

  /** Where the tables let a name go on with what it may begin with, every name can be closed. */
  lemma {:induction false} NameCloses(enc: Encoding, prefix: seq<Byte>, local: seq<Byte>)
    requires IsQName(enc, prefix, local) && NameChars(enc, local)
    ensures G.ClosingName(enc, QName(prefix, local))
  {
    hide NameChars;
    hide G.ClosingChars;
    NoMoreChars(enc);
    if prefix == [] {
      NamePartCloses(enc, local, []);
      assert local + [] == local;
    } else {
      NameCharsClose(enc, local, []);
      assert local + [] == local;
      ColonCloses(enc, local);
      NamePartCloses(enc, prefix, [0x3a] + local);
      assert prefix + ([0x3a] + local) == prefix + [0x3a] + local;
    }
  }

  lemma {:induction false} NoMoreChars(enc: Encoding)
    ensures G.ClosingChars(enc, [])
  {
  }

  lemma {:induction false} ColonCloses(enc: Encoding, rest: seq<Byte>)
    requires enc.ns && G.ClosingChars(enc, rest)
    ensures G.ClosingChars(enc, [0x3a] + rest)
  {
    assert ([0x3a] + rest)[1..] == rest;
  }

  lemma {:induction false} NamePartCloses(enc: Encoding, name: seq<Byte>, rest: seq<Byte>)
    requires IsName(enc, name) && G.ClosingChars(enc, rest)
    ensures G.ClosingName(enc, name + rest)
  {
    hide NameChar;
    hide StartChar;
    hide G.ClosingChars;
    var n := LeadLength(name[0]);
    NameCharsClose(enc, name[n..], rest);
    assert (name + rest)[..n] == name[..n] && (name + rest)[n..] == name[n..] + rest;
  }

  // ----- one item -----

  lemma {:induction false} MarkupIsRead(enc: Encoding, text: seq<Byte>, ptr: nat, m: G.Markup, tail: seq<Byte>,
                                        events: seq<Event>)
    requires ptr <= |text| && text[ptr..] == MarkupBytes(m) + tail && G.GoodMarkup(enc, m)
    requires !G.MarkupKind(m).XmlDecl? && !m.Section?
    ensures ptr + |MarkupBytes(m)| <= |text| && text[ptr + |MarkupBytes(m)|..] == tail
    ensures UnitRun(enc, false, text, ptr, events) ==
            UnitRun(enc, false, text, ptr + |MarkupBytes(m)|, events + [MarkupEvent(m)])
  {
    hide UnitRun;
    hide G.GoodMarkup;
    hide G.MarkupText;
    MarkupIsUnit(enc, text, ptr, m, tail);
    hide T.Unit;
    KindsOfMarkup(m);
    hide G.MarkupKind;
    NextUnit(enc, false, text, ptr, events, Token(G.MarkupKind(m), ptr + |MarkupBytes(m)|));
  }

  lemma {:induction false} KindsOfMarkup(m: G.Markup)
    ensures var k := G.MarkupKind(m);
            !k.CharRef? && !k.DataChars? && !k.CdataSectClose? && (k.CdataSectOpen? <==> m.Section?)
  {
  }

  lemma {:induction false} MarkupIsUnit(enc: Encoding, text: seq<Byte>, ptr: nat, m: G.Markup, tail: seq<Byte>)
    requires ptr <= |text| && text[ptr..] == MarkupBytes(m) + tail && G.GoodMarkup(enc, m)
    ensures var next := ptr + |MarkupBytes(m)|;
            && ptr < next <= |text| && text[ptr..next] == MarkupBytes(m) && text[next..] == tail
            && T.Unit(enc, false, text, ptr) == Token(G.MarkupKind(m), next)
  {
    hide Scan;
    hide G.GoodMarkup;
    hide G.MarkupText;
    hide G.MarkupKind;
    Rest(text, ptr, MarkupBytes(m), tail);
    assert MarkupBytes(m) + tail == [0x3c] + (G.MarkupText(m) + tail);
    Rest(text, ptr, [0x3c], G.MarkupText(m) + tail);
    Rest(text, ptr + 1, G.MarkupText(m), tail);
    G.MarkupIsScanned(enc, text, ptr + 1, ptr + 1 + |G.MarkupText(m)|, m);
    TypesOfMarkup(enc, text[ptr]);
    hide TypeOf;
  }

  lemma {:induction false} ReferenceIsRead(enc: Encoding, text: seq<Byte>, ptr: nat, kind: Kind, bytes: seq<Byte>,
                                           tail: seq<Byte>, events: seq<Event>)
    requires ptr <= |text| && text[ptr..] == ([0x26] + bytes) + tail && M.IsRef(enc, kind, bytes)
    requires kind.CharRef? ==> !BadReference([0x26] + bytes)
    ensures var next := ptr + 1 + |bytes|;
            && next <= |text| && text[next..] == tail
            && UnitRun(enc, false, text, ptr, events) == UnitRun(enc, false, text, next, events + [Event(kind, [0x26] + bytes)])
  {
    hide BadReference;
    hide UnitRun;
    ReferenceIsUnit(enc, text, ptr, kind, bytes, tail);
    hide T.Unit;
    hide M.IsRef;
    Rest(text, ptr, [0x26] + bytes, tail);
    NextStands(enc, text, ptr, events, Token(kind, ptr + 1 + |bytes|));
  }

  /** A unit that is no fault and does not change the mode. */
  lemma {:induction false} NextStands(enc: Encoding, text: seq<Byte>, ptr: nat, events: seq<Event>, r: Result)
    requires ptr < |text| && r == T.Unit(enc, false, text, ptr) && MayStand(text, ptr, r)
    requires !r.kind.CdataSectOpen? && !r.kind.DataChars?
    ensures UnitRun(enc, false, text, ptr, events) ==
            UnitRun(enc, false, text, r.next, events + [Event(r.kind, text[ptr..r.next])])
  {
    hide T.Unit;
    hide BadReference;
  }

  lemma {:induction false} ReferenceIsUnit(enc: Encoding, text: seq<Byte>, ptr: nat, kind: Kind, bytes: seq<Byte>,
                                           tail: seq<Byte>)
    requires ptr <= |text| && text[ptr..] == ([0x26] + bytes) + tail && M.IsRef(enc, kind, bytes)
    ensures ptr < |text| && T.Unit(enc, false, text, ptr) == Token(kind, ptr + 1 + |bytes|)
    ensures kind.CharRef? || kind.EntityRef?
  {
    hide Scan;
    hide M.IsNameRef;
    hide M.IsNumberRef;
    assert ([0x26] + bytes) + tail == [0x26] + (bytes + tail);
    Rest(text, ptr, [0x26], bytes + tail);
    Rest(text, ptr + 1, bytes, tail);
    M.RefIsScanned(enc, InContent, kind, text, ptr + 1, ptr + 1 + |bytes|);
    TypesOfMarkup(enc, text[ptr]);
    hide TypeOf;
  }

  lemma {:induction false} SectionBytesAreRead(enc: Encoding, text: seq<Byte>, ptr: nat, cs: seq<Char>, tail: seq<Byte>,
                                               events: seq<Event>)
    requires ptr <= |text| && text[ptr..] == SectionBytes(cs) + tail
    requires IsXmlText(cs) && NoneCloses(All8(cs), 0, |All8(cs)|)
    ensures var next := ptr + |SectionBytes(cs)|;
            && next <= |text| && text[next..] == tail
            && UnitRun(enc, false, text, ptr, events) ==
               UnitRun(enc, false, text, next, EventsOf(enc, Section(cs), events))
  {
    hide UnitRun;
    hide Lines;
    Rest(text, ptr, SectionBytes(cs), tail);
    SectionIsRead(enc, text[..ptr], cs, tail, events);
    assert text[..ptr] + SectionBytes(cs) + tail == text;
  }

  /** Behind a text that contains no "]]>" none begins inside it, when no bracket follows. */
  lemma {:induction false} NoneInText(text: seq<Byte>, ptr: nat, body: seq<Byte>, tail: seq<Byte>)
    requires ptr <= |text| && text[ptr..] == body + tail && NoneCloses(body, 0, |body|)
    requires tail != [] && tail[0] != 0x5d && tail[0] != 0x3e
    ensures NoneCloses(text, ptr, ptr + |body|)
  {
    assert forall k | 0 <= k <= |body| :: text[ptr + k] == text[ptr..][k];
    forall i | ptr <= i < ptr + |body|
      ensures !ClosesAt(text, i)
    {
      assert !ClosesAt(body, i - ptr);
    }
  }

  /** What may stand behind a text: markup or a reference. */
  predicate EndsText(tail: seq<Byte>) {
    tail != [] && (tail[0] == 0x3c || tail[0] == 0x26)
  }

  lemma {:induction false} TextBytesAreRead(enc: Encoding, text: seq<Byte>, ptr: nat, cs: seq<Char>, tail: seq<Byte>,
                                            events: seq<Event>)
    requires ptr <= |text| && text[ptr..] == All8(cs) + tail && EndsText(tail)
    requires IsXmlText(cs) && IsPlain(cs) && NoneCloses(All8(cs), 0, |All8(cs)|)
    ensures var next := ptr + |All8(cs)|;
            && next <= |text| && text[next..] == tail
            && UnitRun(enc, false, text, ptr, events) == UnitRun(enc, false, text, next, Lines(enc, cs, events))
  {
    hide UnitRun;
    hide Lines;
    Rest(text, ptr, All8(cs), tail);
    NoneInText(text, ptr, All8(cs), tail);
    TextIsRead(enc, false, text, ptr, cs, tail, events);
  }

  // ----- content -----

  lemma {:induction false} FirstByte(enc: Encoding, items: seq<Item>, tail: seq<Byte>)
    requires EndsText(tail) && (|items| > 0 ==> !items[0].Text?)
    ensures EndsText(PrintAll(items) + tail)
  {
    if |items| == 0 {
      assert PrintAll(items) + tail == tail;
    } else {
      var b := Print(items[0]);
      assert |b| > 0 && (b[0] == 0x3c || b[0] == 0x26);
    }
  }

  /** An item, wherever it stands in content, is reported as it was printed, and content goes on behind it. */
  lemma {:induction false} ItemIsRead(enc: Encoding, text: seq<Byte>, ptr: nat, item: Item, tail: seq<Byte>,
                                      events: seq<Event>)
    requires ptr <= |text| && text[ptr..] == Print(item) + tail && GoodItem(enc, item) && (item.Text? ==> EndsText(tail))
    ensures ptr + |Print(item)| <= |text| && text[ptr + |Print(item)|..] == tail
    ensures UnitRun(enc, false, text, ptr, events) ==
            UnitRun(enc, false, text, ptr + |Print(item)|, EventsOf(enc, item, events))
    decreases item, 0
  {
    hide UnitRun;
    hide BadReference;
    hide M.IsRef;
    hide Lines;
    hide SectionBytes;
    hide MarkupBytes;
    match item
    case Text(cs) => TextBytesAreRead(enc, text, ptr, cs, tail, events);
    case Section(cs) => SectionBytesAreRead(enc, text, ptr, cs, tail, events);
    case Reference(kind, bytes) => ReferenceIsRead(enc, text, ptr, kind, bytes, tail, events);
    case Other(m) => OtherIsRead(enc, text, ptr, m, tail, events);
    case Element(tag, content, gap) => ElementIsRead(enc, text, ptr, tag, content, gap, tail, events);
  }

  lemma {:induction false} OtherIsRead(enc: Encoding, text: seq<Byte>, ptr: nat, m: G.Markup, tail: seq<Byte>,
                                       events: seq<Event>)
    requires ptr <= |text| && text[ptr..] == MarkupBytes(m) + tail && IsOther(enc, m)
    ensures ptr + |MarkupBytes(m)| <= |text| && text[ptr + |MarkupBytes(m)|..] == tail
    ensures UnitRun(enc, false, text, ptr, events) ==
            UnitRun(enc, false, text, ptr + |MarkupBytes(m)|, events + [MarkupEvent(m)])
  {
    hide UnitRun;
    hide G.GoodMarkup;
    MarkupIsRead(enc, text, ptr, m, tail, events);
  }

  lemma {:induction false} ElementIsRead(enc: Encoding, text: seq<Byte>, ptr: nat, tag: G.Tag, content: seq<Item>,
                                         gap: seq<Byte>, tail: seq<Byte>, events: seq<Event>)
    requires GoodItem(enc, Element(tag, content, gap))
    requires ptr <= |text| && text[ptr..] == Print(Element(tag, content, gap)) + tail
    ensures var item := Element(tag, content, gap);
            && ptr + |Print(item)| <= |text| && text[ptr + |Print(item)|..] == tail
            && UnitRun(enc, false, text, ptr, events) ==
               UnitRun(enc, false, text, ptr + |Print(item)|, EventsOf(enc, item, events))
    decreases content, 3
  {
    hide UnitRun;
    hide G.GoodTag;
    hide MarkupBytes;
    hide GoodContent;
    hide PrintAll;
    var first, begun := MarkupBytes(G.Element(tag)), events + [MarkupEvent(G.Element(tag))];
    if tag.empty {
      assert first + [] == first;
      MarkupIsRead(enc, text, ptr, G.Element(tag), tail, events);
    } else {
      var last := MarkupBytes(EndMarkup(tag, gap));
      var rest := PrintAll(content) + (last + tail);
      assert (first + (PrintAll(content) + last)) + tail == first + rest;
      MarkupIsRead(enc, text, ptr, G.Element(tag), rest, events);
      InsideIsRead(enc, text, ptr + |first|, content, EndMarkup(tag, gap), tail, begun);
    }
  }

  /** The content of an element and its end tag. */
  lemma {:induction false} InsideIsRead(enc: Encoding, text: seq<Byte>, ptr: nat, content: seq<Item>, end: G.Markup,
                                        tail: seq<Byte>, events: seq<Event>)
    requires GoodContent(enc, content) && G.GoodMarkup(enc, end) && end.End?
    requires ptr <= |text| && text[ptr..] == PrintAll(content) + (MarkupBytes(end) + tail)
    ensures var next := ptr + |PrintAll(content)| + |MarkupBytes(end)|;
            && next <= |text| && text[next..] == tail
            && UnitRun(enc, false, text, ptr, events) ==
               UnitRun(enc, false, text, next, EventsOfAll(enc, content, events) + [MarkupEvent(end)])
    decreases content, 2
  {
    hide UnitRun;
    hide G.GoodMarkup;
    hide GoodContent;
    hide PrintAll;
    hide EventsOfAll;
    BeginsMarkup(end, tail);
    hide MarkupBytes;
    ContentIsRead(enc, text, ptr, content, MarkupBytes(end) + tail, events);
    MarkupIsRead(enc, text, ptr + |PrintAll(content)|, end, tail, EventsOfAll(enc, content, events));
  }

  lemma {:induction false} BeginsMarkup(m: G.Markup, tail: seq<Byte>)
    ensures EndsText(MarkupBytes(m) + tail)
  {
    hide G.MarkupText;
  }

  lemma {:induction false} ContentIsRead(enc: Encoding, text: seq<Byte>, ptr: nat, items: seq<Item>, tail: seq<Byte>,
                                         events: seq<Event>)
    requires ptr <= |text| && text[ptr..] == PrintAll(items) + tail && GoodContent(enc, items) && EndsText(tail)
    ensures ptr + |PrintAll(items)| <= |text| && text[ptr + |PrintAll(items)|..] == tail
    ensures UnitRun(enc, false, text, ptr, events) ==
            UnitRun(enc, false, text, ptr + |PrintAll(items)|, EventsOfAll(enc, items, events))
    decreases items, 1
  {
    hide UnitRun;
    hide Print;
    hide GoodItem;
    hide EventsOf;
    if |items| == 0 {
      assert PrintAll(items) + tail == tail;
    } else {
      var rest := PrintAll(items[1..]) + tail;
      assert PrintAll(items) + tail == Print(items[0]) + rest;
      if items[0].Text? {
        FirstByte(enc, items[1..], tail);
      }
      ItemIsRead(enc, text, ptr, items[0], rest, events);
      ContentIsRead(enc, text, ptr + |Print(items[0])|, items[1..], tail, EventsOf(enc, items[0], events));
    }
  }

  /** However it is cut, an element with its content is reported exactly as it was printed. */
  lemma {:induction false} DocumentIsReported(enc: Encoding, doc: Item, chunks: seq<seq<Byte>>)
    requires doc.Element? && GoodItem(enc, doc) && |chunks| > 0 && Joined(chunks) == Print(doc)
    ensures FeedAll(enc, Fresh(false), chunks) == Session(Exhausted, false, [], |Print(doc)|, EventsOf(enc, doc, []))
  {
    hide FeedAll;
    hide Print;
    hide EventsOf;
    hide GoodItem;
    hide UnitRun;
    hide Joined;
    var text := Print(doc);
    assert text[0..] == text + [];
    ItemIsRead(enc, text, 0, doc, [], []);
    ReadToTheEnd(enc, chunks, EventsOf(enc, doc, []));
  }

  // ----- the tags of a document -----

  /** Bytes of a name, and bytes that end one. */
  lemma {:induction false} NameTypes(enc: Encoding, c: seq<Byte>)
    requires |c| > 0 && |c| == LeadLength(c[0])
    ensures NameChar(enc, c) || StartChar(enc, c) ==>
              if |c| == 1 then TN.IsNameType(TypeOf(enc, c[0])) && !IsLead(TypeOf(enc, c[0]))
              else IsLead(TypeOf(enc, c[0])) && Width(TypeOf(enc, c[0])) == |c|
    ensures c[0] == 0x3a ==> TN.IsNameType(TypeOf(enc, c[0])) && !IsLead(TypeOf(enc, c[0]))
    ensures IsBlank(c[0]) || c[0] == 0x3e || c[0] == 0x2f ==>
              !TN.IsNameType(TypeOf(enc, c[0])) && !IsLead(TypeOf(enc, c[0]))
  {
  }

  lemma {:induction false} OneOfName(enc: Encoding, text: seq<Byte>, ptr: nat)
    requires ptr < |text| && ptr + LeadLength(text[ptr]) <= |text|
    requires var c := text[ptr..ptr + LeadLength(text[ptr])]; NameChar(enc, c) || StartChar(enc, c)
    ensures TN.NameEnd(enc, text, ptr) == TN.NameEnd(enc, text, ptr + LeadLength(text[ptr]))
  {
    hide NameChar;
    hide StartChar;
    hide TypeOf;
    NameTypes(enc, text[ptr..ptr + LeadLength(text[ptr])]);
  }

  lemma {:induction false} CharsOfName(enc: Encoding, text: seq<Byte>, ptr: nat, end: nat)
    requires ptr <= end <= |text| && NameChars(enc, text[ptr..end])
    ensures TN.NameEnd(enc, text, ptr) == TN.NameEnd(enc, text, end)
    decreases end - ptr
  {
    hide TN.NameEnd;
    hide NameChar;
    if ptr < end {
      var n, s := LeadLength(text[ptr]), text[ptr..end];
      assert s[0] == text[ptr] && s[..n] == text[ptr..ptr + n] && s[n..] == text[ptr + n..end];
      OneOfName(enc, text, ptr);
      CharsOfName(enc, text, ptr + n, end);
    }
  }

  lemma {:induction false} WholeName(enc: Encoding, text: seq<Byte>, ptr: nat, end: nat)
    requires ptr <= end <= |text| && IsName(enc, text[ptr..end])
    ensures TN.NameEnd(enc, text, ptr) == TN.NameEnd(enc, text, end)
  {
    hide TN.NameEnd;
    hide NameChar;
    hide StartChar;
    hide CheckNmstrt;
    M.NameBegins(enc, text, ptr, end);
    hide IsName;
    OneOfName(enc, text, ptr);
    CharsOfName(enc, text, ptr + LeadLength(text[ptr]), end);
  }

  lemma {:induction false} EndOfName(enc: Encoding, text: seq<Byte>, ptr: nat)
    requires ptr < |text| && (IsBlank(text[ptr]) || text[ptr] == 0x3e || text[ptr] == 0x2f)
    ensures TN.NameEnd(enc, text, ptr) == ptr
  {
    hide TypeOf;
    NameTypes(enc, text[ptr..ptr + 1]);
  }

  /** The name of a printed tag, with its prefix. */
  lemma {:induction false} NameOfTag(enc: Encoding, prefix: seq<Byte>, local: seq<Byte>, before: seq<Byte>, rest: seq<Byte>)
    requires IsQName(enc, prefix, local) && |rest| > 0 && (IsBlank(rest[0]) || rest[0] == 0x3e || rest[0] == 0x2f)
    ensures TN.NameAt(enc, before + (QName(prefix, local) + rest), |before|) == QName(prefix, local)
  {
    hide TN.NameEnd;
    hide IsName;
    var name, ptr := QName(prefix, local), |before|;
    var text, end := before + (name + rest), ptr + |name|;
    assert text[ptr..] == name + rest;
    Rest(text, ptr, name, rest);
    assert text[end] == text[end..][0];
    EndOfName(enc, text, end);
    if prefix == [] {
      WholeName(enc, text, ptr, end);
    } else {
      PrefixedName(enc, text, ptr, prefix, local, rest);
    }
  }

  lemma {:induction false} PrefixedName(enc: Encoding, text: seq<Byte>, ptr: nat, prefix: seq<Byte>, local: seq<Byte>,
                                        rest: seq<Byte>)
    requires IsName(enc, prefix) && IsName(enc, local)
    requires ptr <= |text| && text[ptr..] == prefix + [0x3a] + local + rest
    ensures var end := ptr + |prefix| + 1 + |local|;
            end <= |text| && TN.NameEnd(enc, text, ptr) == TN.NameEnd(enc, text, end)
  {
    hide TN.NameEnd;
    hide IsName;
    assert text[ptr..] == prefix + ([0x3a] + (local + rest));
    Rest(text, ptr, prefix, [0x3a] + (local + rest));
    var colon := ptr + |prefix|;
    Rest(text, colon, [0x3a], local + rest);
    Rest(text, colon + 1, local, rest);
    WholeName(enc, text, ptr, colon);
    ColonOfName(enc, text, colon);
    WholeName(enc, text, colon + 1, colon + 1 + |local|);
  }

  lemma {:induction false} ColonOfName(enc: Encoding, text: seq<Byte>, ptr: nat)
    requires ptr < |text| && text[ptr] == 0x3a
    ensures TN.NameEnd(enc, text, ptr) == TN.NameEnd(enc, text, ptr + 1)
  {
    hide TypeOf;
    NameTypes(enc, text[ptr..ptr + 1]);
  }

  /** Behind the name in a start tag: a blank, '/' or '>'. */
  lemma {:induction false} BehindName(enc: Encoding, tag: G.Tag)
    requires G.GoodTag(enc, tag)
    ensures var rest := G.AttsText(tag.atts) + (tag.gap + G.TagEnd(tag.empty));
            |rest| > 0 && (IsBlank(rest[0]) || rest[0] == 0x3e || rest[0] == 0x2f)
  {
    hide IsQName;
    if |tag.atts| > 0 {
      var a := tag.atts[0];
      assert G.GoodAtt(enc, a);
      assert G.AttText(a)[0] == a.gap[0];
      assert G.AttsText(tag.atts) == G.AttText(a) + G.AttsText(tag.atts[1..]);
    }
  }

  lemma {:induction false} TagsOfElement(enc: Encoding, tag: G.Tag)
    requires G.GoodTag(enc, tag)
    ensures var name := QName(tag.prefix, tag.local);
            TN.TagOf(enc, MarkupEvent(G.Element(tag))) == [if tag.empty then W.Single(name) else W.Open(name)]
  {
    BehindName(enc, tag);
    hide IsQName;
    hide TN.NameAt;
    hide G.AttsText;
    hide G.TagEnd;
    NameOfTag(enc, tag.prefix, tag.local, [0x3c], G.AttsText(tag.atts) + (tag.gap + G.TagEnd(tag.empty)));
  }

  lemma {:induction false} TagOfEnd(enc: Encoding, tag: G.Tag, gap: seq<Byte>)
    requires G.GoodTag(enc, tag) && Blanks(gap)
    ensures TN.TagOf(enc, MarkupEvent(EndMarkup(tag, gap))) == [W.Close(QName(tag.prefix, tag.local))]
  {
    hide IsQName;
    hide TN.NameAt;
    hide QName;
    var name, rest := QName(tag.prefix, tag.local), gap + [0x3e];
    assert rest[0] == if gap == [] then 0x3e else gap[0];
    NameOfTag(enc, tag.prefix, tag.local, [0x3c, 0x2f], rest);
    EndBytes(tag, gap);
  }

  lemma {:induction false} EndBytes(tag: G.Tag, gap: seq<Byte>)
    ensures MarkupEvent(EndMarkup(tag, gap)) ==
            Event(EndTag, [0x3c, 0x2f] + (QName(tag.prefix, tag.local) + (gap + [0x3e])))
  {
    hide QName;
    var rest := QName(tag.prefix, tag.local) + (gap + [0x3e]);
    assert [0x3c] + ([0x2f] + rest) == [0x3c, 0x2f] + rest;
  }

  lemma {:induction false} DataIsNoTag(enc: Encoding, e: Event)
    requires e.kind.DataChars? || e.kind.DataNewline?
    ensures TN.TagOf(enc, e) == []
  {
  }

  /** Characters and line ends are no tags. */
  lemma {:induction false} LinesAreNoTags(enc: Encoding, cs: seq<Char>, events: seq<Event>)
    ensures TN.TagsOf(enc, Lines(enc, cs, events)) == TN.TagsOf(enc, events)
    decreases |cs|
  {
    if |cs| > 0 {
      FirstKind(enc, cs);
      hide First;
      hide Taken;
      hide Report;
      hide TN.TagsOf;
      DataIsNoTag(enc, First(enc, cs));
      hide TN.TagOf;
      TN.TagsOfReport(enc, events, First(enc, cs));
      LinesAreNoTags(enc, cs[Taken(enc, cs)..], Report(events, First(enc, cs)));
    }
  }

  lemma {:induction false} TagsOfMore(enc: Encoding, events: seq<Event>, e: Event)
    ensures TN.TagsOf(enc, events + [e]) == TN.TagsOf(enc, events) + TN.TagOf(enc, e)
  {
    hide TN.TagOf;
    assert (events + [e])[..|events|] == events;
  }

  lemma {:induction false} OtherIsNoTag(enc: Encoding, m: G.Markup)
    requires m.Note? || m.Instruction?
    ensures TN.TagOf(enc, MarkupEvent(m)) == []
  {
  }

  lemma {:induction false} PrintAllJoins(a: seq<W.Node>, b: seq<W.Node>)
    ensures W.PrintAll(a + b) == W.PrintAll(a) + W.PrintAll(b)
    decreases |b|
  {
    hide W.Print;
    if |b| == 0 {
      assert a + b == a;
    } else {
      assert (a + b)[..|a + b| - 1] == a + b[..|b| - 1];
      PrintAllJoins(a, b[..|b| - 1]);
    }
  }

  lemma {:induction false} PrintOne(n: W.Node)
    ensures W.PrintAll([n]) == W.Print(n)
  {
    hide W.Print;
    assert [n][..0] == [];
  }

  /** The tags among what is reported for an item are those of its elements. */
  lemma {:induction false} TagsOfItem(enc: Encoding, item: Item, events: seq<Event>)
    requires GoodItem(enc, item)
    ensures TN.TagsOf(enc, EventsOf(enc, item, events)) == TN.TagsOf(enc, events) + W.PrintAll(NodesOf(item))
    decreases item, 0
  {
    hide TN.TagsOf;
    hide Lines;
    match item
    case Text(cs) => LinesAreNoTags(enc, cs, events);
    case Section(cs) =>
      TagsOfMore(enc, events, Event(CdataSectOpen, CDATA_OPEN));
      LinesAreNoTags(enc, cs, events + [Event(CdataSectOpen, CDATA_OPEN)]);
      TagsOfMore(enc, Lines(enc, cs, events + [Event(CdataSectOpen, CDATA_OPEN)]), Event(CdataSectClose, CDATA_CLOSE));
    case Reference(kind, bytes) => TagsOfMore(enc, events, Event(kind, [0x26] + bytes));
    case Other(m) => OtherIsNoTag(enc, m); TagsOfMore(enc, events, MarkupEvent(m));
    case Element(tag, content, gap) => TagsInside(enc, tag, content, gap, events);
  }

  lemma {:induction false} TagsInside(enc: Encoding, tag: G.Tag, content: seq<Item>, gap: seq<Byte>, events: seq<Event>)
    requires GoodItem(enc, Element(tag, content, gap))
    ensures var item := Element(tag, content, gap);
            TN.TagsOf(enc, EventsOf(enc, item, events)) == TN.TagsOf(enc, events) + W.PrintAll(NodesOf(item))
    decreases content, 3
  {
    hide TN.TagsOf;
    hide TN.TagOf;
    hide G.GoodTag;
    hide MarkupEvent;
    hide GoodContent;
    var open := MarkupEvent(G.Element(tag));
    TagsOfElement(enc, tag);
    TagsOfMore(enc, events, open);
    PrintOne(NodesOf(Element(tag, content, gap))[0]);
    if !tag.empty {
      TagsOfContent(enc, content, events + [open]);
      TagOfEnd(enc, tag, gap);
      TagsOfMore(enc, EventsOfAll(enc, content, events + [open]), MarkupEvent(EndMarkup(tag, gap)));
    }
  }

  lemma {:induction false} TagsOfContent(enc: Encoding, items: seq<Item>, events: seq<Event>)
    requires GoodContent(enc, items)
    ensures TN.TagsOf(enc, EventsOfAll(enc, items, events)) == TN.TagsOf(enc, events) + W.PrintAll(NodesOfAll(items))
    decreases items, 1
  {
    hide TN.TagsOf;
    hide NodesOf;
    hide EventsOf;
    hide GoodItem;
    if |items| > 0 {
      TagsOfItem(enc, items[0], events);
      TagsOfContent(enc, items[1..], EventsOf(enc, items[0], events));
      PrintAllJoins(NodesOf(items[0]), NodesOfAll(items[1..]));
    } else {
      assert TN.TagsOf(enc, events) + W.PrintAll([]) == TN.TagsOf(enc, events);
    }
  }

  /** The parser follows a document to its end, however it is cut, and reports its elements. */
  lemma {:induction false} DocumentIsFollowed(enc: Encoding, doc: Item)
    requires doc.Element? && GoodItem(enc, doc)
    ensures var whole := Feed(enc, Fresh(false), Print(doc), true);
            && TN.TagsOf(enc, whole.events) == W.Print(NodesOf(doc)[0])
            && W.Follow(W.BEGIN, TN.TagsOf(enc, whole.events)) == W.Progress(W.Ended, [], W.EventsOf(NodesOf(doc)[0]))
  {
    hide Feed;
    hide Print;
    hide EventsOf;
    hide TN.TagsOf;
    hide GoodItem;
    hide W.Print;
    hide W.EventsOf;
    var node := NodesOf(doc)[0];
    assert Joined([Print(doc)]) == Print(doc) by { JoinedOne(Print(doc)); }
    DocumentIsReported(enc, doc, [Print(doc)]);
    TagsOfItem(enc, doc, []);
    NoTags(enc);
    PrintOne(node);
    W.NodeIsFollowed(W.BEGIN, node);
    assert [] + W.Print(node) == W.Print(node) && [] + W.EventsOf(node) == W.EventsOf(node);
  }

  lemma {:induction false} JoinedOne(text: seq<Byte>)
    ensures Joined([text]) == text
  {
  }

  lemma {:induction false} NoTags(enc: Encoding)
    ensures TN.TagsOf(enc, []) == []
  {
  }
}
