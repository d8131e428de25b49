/** What text and CDATA sections mean, on bytes: where text is refused, what ends a section, and what
    is reported for the characters in between (contentTok and cdataSectionTok). */
module ContentText {
  import opened Bytes
  import opened Characters
  import opened MarkupMachine
  import opened ContentTokens
  import opened ContentRuns
  import C = CharRefs
  import T = ContentTokens

  /** The characters of a text are XML characters (section 2.2 of XML 1.0). */
  predicate IsXmlText(cs: seq<Char>) {
    forall i | 0 <= i < |cs| :: C.IsXmlChar(cs[i])
  }

  /** No '<' and no '&'. */
  predicate IsPlain(cs: seq<Char>) {
    forall i | 0 <= i < |cs| :: cs[i] != 0x3c && cs[i] != 0x26
  }

  /** "]]>" */
  predicate ClosesAt(text: seq<Byte>, i: nat) {
    i + 2 < |text| && text[i] == 0x5d && text[i + 1] == 0x5d && text[i + 2] == 0x3e
  }

  /** The characters of the end of a line at the start of a text: CR LF is one end, so is each other CR and LF. */
  function NewlineLength(enc: Encoding, cs: seq<Char>): (n: nat)
    ensures n <= |cs|
  {
    if |cs| == 0 then 0
    else if cs[0] == 0x0a then 1
    else if cs[0] != 0x0d || enc.internal then 0
    else if |cs| > 1 && cs[1] == 0x0a then 2
    else 1
  }

  /** The first character, or end of a line, of a text. */
  function First(enc: Encoding, cs: seq<Char>): Event
    requires |cs| > 0
  {
    var n := NewlineLength(enc, cs);
    if n > 0 then Event(DataNewline, All8(cs[..n])) else Event(DataChars, Utf8(cs[0]))
  }

  function Taken(enc: Encoding, cs: seq<Char>): (n: nat)
    requires |cs| > 0
    ensures 1 <= n <= |cs|
  {
    var n := NewlineLength(enc, cs);
    if n > 0 then n else 1
  }

  /** What is reported for a text: its data, and the ends of its lines. */
  function Lines(enc: Encoding, cs: seq<Char>, events: seq<Event>): seq<Event>
    decreases |cs|
  {
    if |cs| == 0 then events else Lines(enc, cs[Taken(enc, cs)..], Report(events, First(enc, cs)))
  }

  // ----- one character -----

  /** A character at the start of a rest. */
  lemma {:induction false} FirstChar(cs: seq<Char>, tail: seq<Byte>)
    requires |cs| > 0
    ensures All8(cs) + tail == Utf8(cs[0]) + (All8(cs[1..]) + tail)
  {
    assert All8(cs) == Utf8(cs[0]) + All8(cs[1..]);
  }

  lemma {:induction false} AsciiFirst(enc: Encoding, c: Char, rest: seq<Byte>)
    ensures var text := Utf8(c) + rest;
            && (text[0] < 0x80 <==> c < 0x80) && (c < 0x80 ==> text[0] == c && text[1..] == rest)
            && text[|Utf8(c)|..] == rest
  {
    if 0x80 <= c < 0x800 {
      Encoded2(c);
    } else if 0x800 <= c < 0x10000 {
      Encoded3(c);
    } else if 0x10000 <= c {
      Encoded4(c);
    }
  }

  /** A character that is nothing special is data by itself. */
  lemma {:induction false} PlainUnit(enc: Encoding, cdata: bool, text: seq<Byte>, ptr: nat, c: Char, rest: seq<Byte>)
    requires ptr <= |text| && text[ptr..] == Utf8(c) + rest && C.IsXmlChar(c)
    requires c != 0x5d && c != 0x0a && (c == 0x0d ==> enc.internal) && (cdata || (c != 0x3c && c != 0x26))
    ensures T.Unit(enc, cdata, text, ptr) == Token(DataChars, ptr + |Utf8(c)|)
  {
    hide Utf8;
    EncodedIsAccepted(enc, c);
    AsciiFirst(enc, c, rest);
    LeadsByLength(enc, c);
    var p := Utf8(c);
    assert text[ptr] == text[ptr..][0] == p[0];
    assert text[ptr..ptr + |p|] == p;
    if c < 0x80 {
      AsciiUnit(enc, cdata, text, ptr);
    } else {
      WideUnit(enc, cdata, text, ptr, |p|);
    }
  }

  lemma {:induction false} AsciiUnit(enc: Encoding, cdata: bool, text: seq<Byte>, ptr: nat)
    requires ptr < |text| && text[ptr] < 0x80 && C.IsXmlChar(text[ptr])
    requires text[ptr] != 0x5d && text[ptr] != 0x0a && (text[ptr] == 0x0d ==> enc.internal)
    requires cdata || (text[ptr] != 0x3c && text[ptr] != 0x26)
    ensures T.Unit(enc, cdata, text, ptr) == Token(DataChars, ptr + 1)
  {
    hide Scan;
    hide BracketAt;
  }

  lemma {:induction false} WideUnit(enc: Encoding, cdata: bool, text: seq<Byte>, ptr: nat, n: nat)
    requires ptr + n <= |text| && 2 <= n <= 4 && text[ptr] >= 0x80
    requires Width(TypeOf(enc, text[ptr])) == n && !InvalidChar(text[ptr..ptr + n])
    ensures T.Unit(enc, cdata, text, ptr) == Token(DataChars, ptr + n)
  {
    hide Scan;
    hide BracketAt;
    hide InvalidChar;
  }

  /** A line feed, and a carriage return with what follows it. */
  lemma {:induction false} NewlineUnit(enc: Encoding, cdata: bool, text: seq<Byte>, ptr: nat)
    requires ptr < |text|
    ensures text[ptr] == 0x0a ==> T.Unit(enc, cdata, text, ptr) == Token(DataNewline, ptr + 1)
    ensures text[ptr] == 0x0d && !enc.internal && ptr + 1 < |text| ==>
              T.Unit(enc, cdata, text, ptr) == Token(DataNewline, if text[ptr + 1] == 0x0a then ptr + 2 else ptr + 1)
    ensures text[ptr] == 0x0d && !enc.internal && ptr + 1 == |text| ==>
              T.Unit(enc, cdata, text, ptr) == if cdata then Partial else TrailingCr
  {
    hide Scan;
    hide BracketAt;
    hide CheckChar;
    if ptr + 1 < |text| {
      LineFeeds(enc, text[ptr + 1]);
    }
  }

  lemma {:induction false} LineFeeds(enc: Encoding, b: Byte)
    ensures TypeOf(enc, b).Lf? <==> b == 0x0a
  {
  }

  lemma {:induction false} BracketUnit(enc: Encoding, cdata: bool, text: seq<Byte>, ptr: nat)
    requires ptr < |text| && text[ptr] == 0x5d
    ensures ClosesAt(text, ptr) ==>
              T.Unit(enc, cdata, text, ptr) == if cdata then Token(CdataSectClose, ptr + 3) else Invalid(ptr + 2)
    ensures ptr + 1 < |text| && (text[ptr + 1] != 0x5d || (ptr + 2 < |text| && !ClosesAt(text, ptr))) ==>
              T.Unit(enc, cdata, text, ptr) == Token(DataChars, ptr + 1)
    ensures ptr + 1 == |text| || (ptr + 2 == |text| && text[ptr + 1] == 0x5d) ==>
              T.Unit(enc, cdata, text, ptr) == if cdata then Partial else TrailingRsqb
  {
    hide Scan;
    hide CheckChar;
  }

  // ----- runs -----

  /** The next step of a run, when it is given. */
  lemma {:induction false} NextUnit(enc: Encoding, cdata: bool, text: seq<Byte>, ptr: nat, events: seq<Event>, r: Result)
    requires ptr <= |text| && r == T.Unit(enc, cdata, text, ptr) && r.Token?
    requires ptr < r.next <= |text| && !r.kind.XmlDecl? && !r.kind.CharRef?
    ensures UnitRun(enc, cdata, text, ptr, events) ==
            UnitRun(enc, ModeAfter(r.kind, cdata), text, r.next, Report(events, Event(r.kind, text[ptr..r.next])))
  {
    hide T.Unit;
    hide Report;
  }

  /** What stands behind a text is enough to tell how the text ends. */
  predicate Told(enc: Encoding, cs: seq<Char>, tail: seq<Byte>) {
    if tail == [] then cs != [0x5d] && cs != [0x5d, 0x5d] && (cs == [0x0d] ==> enc.internal)
    else tail[0] != 0x0a && (tail[0] == 0x5d ==> |tail| > 2)
  }

  /** The bytes that the first event of a text takes. */
  lemma {:induction false} FirstBytes(enc: Encoding, cs: seq<Char>, tail: seq<Byte>)
    requires |cs| > 0
    ensures All8(cs) + tail == First(enc, cs).text + (All8(cs[Taken(enc, cs)..]) + tail)
    ensures |First(enc, cs).text| > 0 && First(enc, cs).text <= All8(cs)
    ensures |All8(cs)| == |First(enc, cs).text| + |All8(cs[Taken(enc, cs)..])|
  {
    hide Utf8;
    AllOne(cs[0]);
    var n := Taken(enc, cs);
    assert cs[..1] == [cs[0]];
    if n == 2 {
      TwoChars(cs);
    }
    AllSplit(cs, n);
    var bytes := First(enc, cs).text;
    assert bytes == All8(cs[..n]);
    assert bytes + (All8(cs[n..]) + tail) == bytes + All8(cs[n..]) + tail;
  }

  /** The first event of a text is what the tokenisers find first. */
  lemma {:induction false} FirstIsFound(enc: Encoding, cdata: bool, text: seq<Byte>, ptr: nat, cs: seq<Char>,
                                        tail: seq<Byte>)
    requires ptr <= |text| && text[ptr..] == All8(cs) + tail && |cs| > 0
    requires C.IsXmlChar(cs[0]) && (cdata || IsPlain(cs)) && !ClosesAt(text, ptr) && Told(enc, cs, tail)
    ensures var e := First(enc, cs); T.Unit(enc, cdata, text, ptr) == Token(e.kind, ptr + |e.text|)
  {
    hide T.Unit;
    hide Utf8;
    var c, rest := cs[0], All8(cs[1..]) + tail;
    FirstChar(cs, tail);
    AsciiFirst(enc, c, rest);
    assert text[ptr] == text[ptr..][0];
    if c == 0x0a || (c == 0x0d && !enc.internal) {
      NewlineUnit(enc, cdata, text, ptr);
      SecondFeed(enc, cs[1..], tail);
      assert text[ptr..][1..] == rest == text[ptr + 1..];
      assert |text| == ptr + 1 + |rest|;
      if rest != [] {
        assert text[ptr + 1] == rest[0];
      } else {
        NothingLeft(cs, tail);
      }
      NewlineBytes(enc, cs);
    } else if c == 0x5d {
      BracketBytes(enc, text, ptr, cs, tail);
      BracketUnit(enc, cdata, text, ptr);
    } else {
      PlainUnit(enc, cdata, text, ptr, c, rest);
    }
  }

  lemma {:induction false} NewlineBytes(enc: Encoding, cs: seq<Char>)
    requires NewlineLength(enc, cs) > 0
    ensures |First(enc, cs).text| == NewlineLength(enc, cs)
  {
    var n := NewlineLength(enc, cs);
    AllOne(cs[0]);
    assert cs[..1] == [cs[0]];
    if n == 2 {
      TwoChars(cs);
    }
  }

  lemma {:induction false} NothingLeft(cs: seq<Char>, tail: seq<Byte>)
    requires |cs| > 0 && All8(cs[1..]) + tail == []
    ensures cs == [cs[0]] && tail == []
  {
    AllNotEmpty(cs[1..]);
  }

  lemma {:induction false} AllNotEmpty(cs: seq<Char>)
    ensures |All8(cs)| >= |cs|
    decreases |cs|
  {
    if |cs| > 0 {
      AllNotEmpty(cs[1..]);
    }
  }

  /** A bracket that closes nothing has enough behind it to tell. */
  lemma {:induction false} BracketBytes(enc: Encoding, text: seq<Byte>, ptr: nat, cs: seq<Char>, tail: seq<Byte>)
    requires ptr <= |text| && text[ptr..] == All8(cs) + tail && |cs| > 0 && cs[0] == 0x5d && Told(enc, cs, tail)
    ensures ptr + 1 < |text|
    ensures text[ptr + 1] != 0x5d || ptr + 2 < |text|
    ensures |Utf8(cs[0])| == 1
  {
    hide Utf8;
    FirstChar(cs, tail);
    AsciiFirst(enc, cs[0], All8(cs[1..]) + tail);
    var rest := All8(cs[1..]) + tail;
    assert text[ptr + 1..] == text[ptr..][1..] == rest;
    if |cs| == 1 {
      assert cs == [0x5d];
      assert rest == tail;
    } else {
      FirstChar(cs[1..], tail);
      AsciiFirst(enc, cs[1], All8(cs[1..][1..]) + tail);
      assert text[ptr + 1] == rest[0];
      if All8(cs[1..][1..]) + tail == [] {
        NothingLeft(cs[1..], tail);
        assert cs == [cs[0], cs[1]];
      }
    }
  }

  lemma {:induction false} FirstKind(enc: Encoding, cs: seq<Char>)
    requires |cs| > 0
    ensures First(enc, cs).kind.DataChars? || First(enc, cs).kind.DataNewline?
  {
  }

  lemma {:induction false} Slices(text: seq<Byte>, ptr: nat, first: seq<Byte>, rest: seq<Byte>)
    requires ptr <= |text| && text[ptr..] == first + rest
    ensures ptr + |first| <= |text| && text[ptr..ptr + |first|] == first && text[ptr + |first|..] == rest
  {
    assert text[ptr..ptr + |first|] == text[ptr..][..|first|];
    assert text[ptr + |first|..] == text[ptr..][|first|..];
  }

  /** One turn of a text run. */
  lemma {:induction false} TextStep(enc: Encoding, cdata: bool, text: seq<Byte>, ptr: nat, cs: seq<Char>,
                                    tail: seq<Byte>, events: seq<Event>)
    requires ptr <= |text| && text[ptr..] == All8(cs) + tail && |cs| > 0
    requires C.IsXmlChar(cs[0]) && (cdata || IsPlain(cs)) && !ClosesAt(text, ptr) && Told(enc, cs, tail)
    ensures var e := First(enc, cs);
            && ptr + |e.text| <= |text| && text[ptr + |e.text|..] == All8(cs[Taken(enc, cs)..]) + tail
            && UnitRun(enc, cdata, text, ptr, events) ==
               UnitRun(enc, cdata, text, ptr + |e.text|, Report(events, e))
  {
    hide T.Unit;
    hide UnitRun;
    hide Report;
    hide IsPlain;
    hide All8;
    FirstIsFound(enc, cdata, text, ptr, cs, tail);
    FirstBytes(enc, cs, tail);
    FirstKind(enc, cs);
    hide First;
    hide Taken;
    var e := First(enc, cs);
    Slices(text, ptr, e.text, All8(cs[Taken(enc, cs)..]) + tail);
    NextUnit(enc, cdata, text, ptr, events, Token(e.kind, ptr + |e.text|));
  }

  lemma {:induction false} AllOne(c: Char)
    ensures All8([c]) == Utf8(c)
  {
    assert [c][1..] == [];
    assert Utf8(c) + [] == Utf8(c);
  }

  lemma {:induction false} TwoChars(cs: seq<Char>)
    requires |cs| > 1 && cs[0] < 0x80 && cs[1] < 0x80
    ensures All8(cs[..2]) == [cs[0], cs[1]] && All8(cs) == [cs[0], cs[1]] + All8(cs[2..])
    ensures Utf8(cs[1]) == [cs[1]]
  {
    AllOne(cs[1]);
    assert cs[..2] == [cs[0], cs[1]] && cs[..2][1..] == [cs[1]];
    assert cs[1..][1..] == cs[2..];
  }

  /** Whether a line feed comes next. */
  lemma {:induction false} SecondFeed(enc: Encoding, cs: seq<Char>, tail: seq<Byte>)
    requires tail == [] || tail[0] != 0x0a
    ensures |All8(cs) + tail| > 0 ==> ((All8(cs) + tail)[0] == 0x0a <==> |cs| > 0 && cs[0] == 0x0a)
  {
    if |cs| > 0 {
      FirstChar(cs, tail);
      AsciiFirst(enc, cs[0], All8(cs[1..]) + tail);
    }
  }

  lemma {:induction false} AllSplit(cs: seq<Char>, k: nat)
    requires k <= |cs|
    ensures All8(cs) == All8(cs[..k]) + All8(cs[k..])
    decreases k
  {
    if k > 0 {
      AllSplit(cs[1..], k - 1);
      assert cs[..k][1..] == cs[1..][..k - 1] && cs[1..][k - 1..] == cs[k..];
    }
  }

  /** No "]]>" begins among these bytes. */
  predicate NoneCloses(text: seq<Byte>, from: nat, to: nat) {
    forall i | from <= i < to :: !ClosesAt(text, i)
  }

  /** A text in front of other things is read to its end, and reported line by line. */
  lemma {:induction false} TextIsRead(enc: Encoding, cdata: bool, text: seq<Byte>, ptr: nat, cs: seq<Char>,
                                      tail: seq<Byte>, events: seq<Event>)
    requires ptr <= |text| && text[ptr..] == All8(cs) + tail
    requires IsXmlText(cs) && (cdata || IsPlain(cs)) && NoneCloses(text, ptr, ptr + |All8(cs)|)
    requires tail != [] && tail[0] != 0x0a && (tail[0] == 0x5d ==> |tail| > 2)
    ensures ptr + |All8(cs)| <= |text|
    ensures UnitRun(enc, cdata, text, ptr, events) ==
            UnitRun(enc, cdata, text, ptr + |All8(cs)|, Lines(enc, cs, events))
    decreases |cs|
  {
    hide UnitRun;
    hide Report;
    hide First;
    hide Taken;
    if |cs| > 0 {
      var e, n := First(enc, cs), Taken(enc, cs);
      FirstBytes(enc, cs, tail);
      TextStep(enc, cdata, text, ptr, cs, tail, events);
      TextIsRead(enc, cdata, text, ptr + |e.text|, cs[n..], tail, Report(events, e));
    }
  }

  // ----- text alone -----

  /** The first "]]>" that begins at or behind `ptr`. */
  predicate FirstClose(text: seq<Byte>, ptr: nat, i: nat) {
    ptr <= i && ClosesAt(text, i) && NoneCloses(text, ptr, i)
  }

  /** The end of the input inside a text: a line end or brackets that could have gone on. */
  lemma {:induction false} UntoldEnd(enc: Encoding, text: seq<Byte>, ptr: nat, cs: seq<Char>, events: seq<Event>)
    requires ptr <= |text| && text[ptr..] == All8(cs) && !Told(enc, cs, [])
    ensures Settle(UnitRun(enc, false, text, ptr, events), text, 0, true) ==
            Session(Exhausted, false, [], |text|, Lines(enc, cs, events))
    ensures NoneCloses(text, ptr, |text|)
  {
    hide Report;
    AllOne(cs[0]);
    assert text[ptr] == text[ptr..][0];
    if cs == [0x5d, 0x5d] {
      TwoChars(cs);
      assert text[ptr..] == [0x5d, 0x5d];
      assert text[ptr + 1] == text[ptr..][1];
      BracketUnit(enc, false, text, ptr);
      LinesOfTwo(enc, events);
    } else {
      assert cs == [cs[0]];
      assert text[ptr..] == [cs[0]];
      if cs[0] == 0x5d {
        BracketUnit(enc, false, text, ptr);
      } else {
        NewlineUnit(enc, false, text, ptr);
      }
      assert cs[1..] == [];
    }
  }

  lemma {:induction false} LinesOfTwo(enc: Encoding, events: seq<Event>)
    ensures Lines(enc, [0x5d, 0x5d], events) == Report(events, Event(DataChars, [0x5d, 0x5d]))
  {
    hide Report;
    var cs: seq<Char> := [0x5d, 0x5d];
    assert cs[1..] == [0x5d] && cs[1..][1..] == [];
    ReportTwice(events, [0x5d], [0x5d]);
    assert [0x5d] + [0x5d] == [0x5d, 0x5d];
  }

  /** What `TextEnds` says of the rest of a text. */
  ghost predicate EndsWell(enc: Encoding, text: seq<Byte>, ptr: nat, cs: seq<Char>, events: seq<Event>)
    requires ptr <= |text|
  {
    var h := UnitRun(enc, false, text, ptr, events);
    && (NoneCloses(text, ptr, |text|) ==>
          Settle(h, text, 0, true) == Session(Exhausted, false, [], |text|, Lines(enc, cs, events)))
    && (forall i: nat | FirstClose(text, ptr, i) :: h.result == Invalid(i + 2))
  }

  lemma {:induction false} EmptyTextEnds(enc: Encoding, text: seq<Byte>, events: seq<Event>)
    ensures EndsWell(enc, text, |text|, [], events)
  {
  }

  /** The rest behind the first event ends as the whole does. */
  lemma {:induction false} RestEnds(enc: Encoding, text: seq<Byte>, ptr: nat, cs: seq<Char>, events: seq<Event>)
    requires ptr <= |text| && text[ptr..] == All8(cs) && |cs| > 0 && IsXmlText(cs) && IsPlain(cs)
    requires Told(enc, cs, []) && !ClosesAt(text, ptr)
    requires var e := First(enc, cs);
             && ptr + |e.text| <= |text|
             && EndsWell(enc, text, ptr + |e.text|, cs[Taken(enc, cs)..], Report(events, e))
    ensures EndsWell(enc, text, ptr, cs, events)
  {
    hide UnitRun;
    hide Settle;
    hide Report;
    hide First;
    hide Taken;
    hide ClosesAt;
    hide Told;
    assert All8(cs) + [] == All8(cs);
    TextStep(enc, false, text, ptr, cs, [], events);
    CloseIsLater(enc, text, ptr, cs);
  }

  /** Text up to the end of the input: it is refused where the first "]]>" ends, and only there. */
  lemma {:induction false} TextEnds(enc: Encoding, text: seq<Byte>, ptr: nat, cs: seq<Char>, events: seq<Event>)
    requires ptr <= |text| && text[ptr..] == All8(cs) && IsXmlText(cs) && IsPlain(cs)
    ensures EndsWell(enc, text, ptr, cs, events)
    decreases |cs|
  {
    hide UnitRun;
    hide Settle;
    hide Report;
    hide First;
    hide Taken;
    hide EndsWell;
    hide Told;
    hide IsXmlText;
    hide IsPlain;
    if |cs| == 0 {
      EmptyTextEnds(enc, text, events);
    } else if !Told(enc, cs, []) || ClosesAt(text, ptr) {
      LastEnds(enc, text, ptr, cs, events);
    } else {
      TextBehind(enc, text, ptr, cs);
      TextEnds(enc, text, ptr + |First(enc, cs).text|, cs[Taken(enc, cs)..], Report(events, First(enc, cs)));
      RestEnds(enc, text, ptr, cs, events);
    }
  }

  lemma {:induction false} LastEnds(enc: Encoding, text: seq<Byte>, ptr: nat, cs: seq<Char>, events: seq<Event>)
    requires ptr <= |text| && text[ptr..] == All8(cs) && |cs| > 0 && (!Told(enc, cs, []) || ClosesAt(text, ptr))
    ensures EndsWell(enc, text, ptr, cs, events)
  {
    hide UnitRun;
    hide Settle;
    hide Lines;
    if !Told(enc, cs, []) {
      UntoldEnd(enc, text, ptr, cs, events);
    } else {
      ClosedHere(enc, text, ptr, events);
    }
  }

  /** The text behind its first event. */
  lemma {:induction false} TextBehind(enc: Encoding, text: seq<Byte>, ptr: nat, cs: seq<Char>)
    requires ptr <= |text| && text[ptr..] == All8(cs) && |cs| > 0
    ensures var p, rest := ptr + |First(enc, cs).text|, cs[Taken(enc, cs)..];
            && p <= |text| && text[p..] == All8(rest)
            && (IsXmlText(cs) ==> IsXmlText(rest)) && (IsPlain(cs) ==> IsPlain(rest))
  {
    hide First;
    hide Taken;
    var rest := All8(cs[Taken(enc, cs)..]);
    FirstBytes(enc, cs, []);
    assert All8(cs) + [] == All8(cs) && rest + [] == rest;
    Slices(text, ptr, First(enc, cs).text, rest);
  }

  lemma {:induction false} ClosedHere(enc: Encoding, text: seq<Byte>, ptr: nat, events: seq<Event>)
    requires ptr < |text| && ClosesAt(text, ptr)
    ensures UnitRun(enc, false, text, ptr, events).result == Invalid(ptr + 2)
    ensures forall i: nat | FirstClose(text, ptr, i) :: i == ptr
  {
    hide T.Unit;
    BracketUnit(enc, false, text, ptr);
  }

  /** Inside the bytes of one character no "]]>" begins. */
  lemma {:induction false} CloseIsLater(enc: Encoding, text: seq<Byte>, ptr: nat, cs: seq<Char>)
    requires ptr <= |text| && text[ptr..] == All8(cs) && |cs| > 0 && !ClosesAt(text, ptr)
    ensures var p := ptr + |First(enc, cs).text|;
            && NoneCloses(text, ptr, p)
            && forall i: nat | FirstClose(text, ptr, i) :: FirstClose(text, p, i)
  {
    var e := First(enc, cs);
    assert All8(cs) + [] == All8(cs);
    FirstBytes(enc, cs, []);
    FirstHasNoBracket(enc, cs);
    assert forall k | 0 <= k < |e.text| :: text[ptr + k] == text[ptr..][k] == e.text[k];
    forall i | ptr <= i < ptr + |e.text|
      ensures !ClosesAt(text, i)
    {
      if i > ptr {
        assert text[i] == e.text[i - ptr];
      }
    }
  }

  lemma {:induction false} FirstHasNoBracket(enc: Encoding, cs: seq<Char>)
    requires |cs| > 0
    ensures forall k | 1 <= k < |First(enc, cs).text| :: First(enc, cs).text[k] != 0x5d
  {
    if NewlineLength(enc, cs) == 2 {
      TwoChars(cs);
    } else if NewlineLength(enc, cs) == 1 {
      AllOne(cs[0]);
      assert cs[..1] == [cs[0]];
    }
  }

  lemma {:induction false} WholeTextEnds(enc: Encoding, cs: seq<Char>)
    requires IsXmlText(cs) && IsPlain(cs)
    ensures var text, s := All8(cs), Feed(enc, Fresh(false), All8(cs), true);
            && (s.verdict.Rejected? <==> exists i: nat :: ClosesAt(text, i))
            && (forall i: nat | FirstClose(text, 0, i) :: s.verdict == Rejected(InvalidToken, i + 2))
            && (!s.verdict.Rejected? ==> s == Session(Exhausted, false, [], |text|, Lines(enc, cs, [])))
  {
    hide UnitRun;
    hide TokRun;
    hide Lines;
    hide Feed;
    var text := All8(cs);
    assert text[0..] == text;
    TextEnds(enc, text, 0, cs, []);
    WholeFeed(enc, text);
    if i: nat :| ClosesAt(text, i) {
      var first := FirstOf(text, i);
      assert FirstClose(text, 0, first);
    } else {
      assert NoneCloses(text, 0, |text|);
    }
  }

  /**
   * However it is cut, a text of XML characters without '<' and '&' is refused exactly when it
   * contains "]]>", at the '>' of the first one; otherwise its data and its line ends are reported.
   */
  lemma {:induction false} TextIsRefusedExactly(enc: Encoding, cs: seq<Char>, chunks: seq<seq<Byte>>)
    requires IsXmlText(cs) && IsPlain(cs) && |chunks| > 0 && Joined(chunks) == All8(cs)
    ensures var text, s := All8(cs), FeedAll(enc, Fresh(false), chunks);
            && (s.verdict.Rejected? <==> exists i: nat :: ClosesAt(text, i))
            && (forall i: nat | FirstClose(text, 0, i) :: s.verdict == Rejected(InvalidToken, i + 2))
            && (!s.verdict.Rejected? ==> s == Session(Exhausted, false, [], |text|, Lines(enc, cs, [])))
  {
    hide Feed;
    hide FeedAll;
    hide Lines;
    CutsDoNotMatter(enc, false, chunks);
    WholeTextEnds(enc, cs);
  }

  lemma {:induction false} FirstOf(text: seq<Byte>, i: nat) returns (first: nat)
    requires ClosesAt(text, i)
    ensures FirstClose(text, 0, first)
  {
    first := 0;
    while !ClosesAt(text, first)
      invariant first <= i && NoneCloses(text, 0, first)
      decreases i - first
    {
      first := first + 1;
    }
  }

  // ----- sections -----

  const CDATA_OPEN: seq<Byte> := [0x3c, 0x21, 0x5b, 0x43, 0x44, 0x41, 0x54, 0x41, 0x5b]
  const CDATA_CLOSE: seq<Byte> := [0x5d, 0x5d, 0x3e]

  /** "<![CDATA[" begins a section. */
  lemma {:induction false} SectionOpens(enc: Encoding, text: seq<Byte>, ptr: nat)
    requires ptr + 9 <= |text| && text[ptr..ptr + 9] == CDATA_OPEN
    ensures T.Unit(enc, false, text, ptr) == Token(CdataSectOpen, ptr + 9)
  {
    hide Scan;
    hide Mismatch;
    var open := text[ptr..ptr + 9];
    assert text[ptr] == open[0] == 0x3c && text[ptr + 1] == open[1] == 0x21 && text[ptr + 2] == open[2] == 0x5b;
    assert text[ptr + 3] == open[3] == 0x43 && text[ptr + 4] == open[4] == 0x44 && text[ptr + 5] == open[5] == 0x41;
    assert text[ptr + 6] == open[6] == 0x54 && text[ptr + 7] == open[7] == 0x41 && text[ptr + 8] == open[8] == 0x5b;
    OpeningLetters(text, ptr + 3);
    OpeningSteps(enc, text, ptr);
    ScanStep(enc, AfterLt, text, ptr + 1);
    ScanStep(enc, AfterExcl, text, ptr + 2);
    ScanStep(enc, CdataOpen, text, ptr + 3);
  }

  lemma {:induction false} OpeningSteps(enc: Encoding, text: seq<Byte>, ptr: nat)
    requires ptr + 9 <= |text| && text[ptr] == 0x3c && text[ptr + 1] == 0x21 && text[ptr + 2] == 0x5b
    ensures TypeOf(enc, text[ptr]).Lt?
    ensures Step(enc, AfterLt, text, ptr + 1) == To(AfterExcl, ptr + 2)
    ensures Step(enc, AfterExcl, text, ptr + 2) == To(CdataOpen, ptr + 3)
  {
  }

  lemma {:induction false} OpeningLetters(text: seq<Byte>, ptr: nat)
    requires ptr + 6 <= |text| && text[ptr] == 0x43 && text[ptr + 1] == 0x44 && text[ptr + 2] == 0x41
    requires text[ptr + 3] == 0x54 && text[ptr + 4] == 0x41 && text[ptr + 5] == 0x5b
    ensures Mismatch(text, ptr, 0) == 6
  {
    assert Mismatch(text, ptr, 6) == 6;
    assert Mismatch(text, ptr, 4) == 6;
    assert Mismatch(text, ptr, 2) == 6;
  }

  /** The "]]>" behind a body without one is the first. */
  lemma {:induction false} CloseIsFirst(text: seq<Byte>, ptr: nat, body: seq<Byte>, rest: seq<Byte>)
    requires ptr <= |text| && text[ptr..] == body + (CDATA_CLOSE + rest) && NoneCloses(body, 0, |body|)
    ensures NoneCloses(text, ptr, ptr + |body|) && ClosesAt(text, ptr + |body|)
  {
    assert forall k | 0 <= k < |body| + 3 :: text[ptr + k] == text[ptr..][k];
    forall i | ptr <= i < ptr + |body|
      ensures !ClosesAt(text, i)
    {
      assert !ClosesAt(body, i - ptr);
    }
  }

  /**
   * Wherever it stands in content, a section is reported as its opening, its characters and line
   * ends, and its closing; the first "]]>" closes it, and content goes on behind it.
   */
  lemma {:induction false} SectionIsRead(enc: Encoding, before: seq<Byte>, cs: seq<Char>, rest: seq<Byte>,
                                         events: seq<Event>)
    requires IsXmlText(cs) && NoneCloses(All8(cs), 0, |All8(cs)|)
    ensures var section := CDATA_OPEN + All8(cs) + CDATA_CLOSE;
            UnitRun(enc, false, before + section + rest, |before|, events) ==
            UnitRun(enc, false, before + section + rest, |before + section|,
                    Lines(enc, cs, events + [Event(CdataSectOpen, CDATA_OPEN)]) + [Event(CdataSectClose, CDATA_CLOSE)])
  {
    hide UnitRun;
    hide T.Unit;
    hide Lines;
    var ptr, body, tail := |before|, All8(cs), CDATA_CLOSE + rest;
    var text := before + (CDATA_OPEN + body + CDATA_CLOSE) + rest;
    assert text[ptr..] == CDATA_OPEN + (body + tail);
    Slices(text, ptr, CDATA_OPEN, body + tail);
    SectionOpens(enc, text, ptr);
    NextUnit(enc, false, text, ptr, events, Token(CdataSectOpen, ptr + 9));
    InsideIsRead(enc, text, ptr + 9, cs, rest, events + [Event(CdataSectOpen, CDATA_OPEN)]);
  }

  /** From behind the opening of a section to behind its close. */
  lemma {:induction false} InsideIsRead(enc: Encoding, text: seq<Byte>, ptr: nat, cs: seq<Char>, rest: seq<Byte>,
                                        events: seq<Event>)
    requires IsXmlText(cs) && NoneCloses(All8(cs), 0, |All8(cs)|)
    requires ptr <= |text| && text[ptr..] == All8(cs) + (CDATA_CLOSE + rest)
    ensures var end := ptr + |All8(cs)|;
            && end + 3 <= |text|
            && UnitRun(enc, true, text, ptr, events) ==
               UnitRun(enc, false, text, end + 3, Lines(enc, cs, events) + [Event(CdataSectClose, CDATA_CLOSE)])
  {
    hide UnitRun;
    hide T.Unit;
    hide Lines;
    hide All8;
    var body, tail, end := All8(cs), CDATA_CLOSE + rest, ptr + |All8(cs)|;
    CloseIsFirst(text, ptr, body, rest);
    TextIsRead(enc, true, text, ptr, cs, tail, events);
    Slices(text, ptr, body, tail);
    Slices(text, end, CDATA_CLOSE, rest);
    BracketUnit(enc, true, text, end);
    NextUnit(enc, true, text, end, Lines(enc, cs, events), Token(CdataSectClose, end + 3));
  }

  /** A section by itself, however it is cut: the mode is that of content again at its end. */
  lemma {:induction false} SectionAlone(enc: Encoding, cs: seq<Char>, chunks: seq<seq<Byte>>)
    requires IsXmlText(cs) && NoneCloses(All8(cs), 0, |All8(cs)|)
    requires |chunks| > 0 && Joined(chunks) == CDATA_OPEN + All8(cs) + CDATA_CLOSE
    ensures FeedAll(enc, Fresh(false), chunks) ==
            Session(Exhausted, false, [], |Joined(chunks)|,
                    Lines(enc, cs, [Event(CdataSectOpen, CDATA_OPEN)]) + [Event(CdataSectClose, CDATA_CLOSE)])
  {
    hide Feed;
    hide FeedAll;
    hide Lines;
    var text := Joined(chunks);
    assert [] + text + [] == text;
    SectionIsRead(enc, [], cs, [], []);
    assert [] + [Event(CdataSectOpen, CDATA_OPEN)] == [Event(CdataSectOpen, CDATA_OPEN)];
    hide UnitRun;
    ReadToTheEnd(enc, chunks, Lines(enc, cs, [Event(CdataSectOpen, CDATA_OPEN)]) + [Event(CdataSectClose, CDATA_CLOSE)]);
  }

  /** A run that reaches the end of the input between two tokens: what it has reported is what is reported. */
  lemma {:induction false} ReadToTheEnd(enc: Encoding, chunks: seq<seq<Byte>>, events: seq<Event>)
    requires |chunks| > 0
    requires UnitRun(enc, false, Joined(chunks), 0, []) == UnitRun(enc, false, Joined(chunks), |Joined(chunks)|, events)
    ensures FeedAll(enc, Fresh(false), chunks) == Session(Exhausted, false, [], |Joined(chunks)|, events)
  {
    hide Feed;
    hide FeedAll;
    hide Joined;
    var text := Joined(chunks);
    EndOfInput(enc, text, events);
    hide UnitRun;
    CutsDoNotMatter(enc, false, chunks);
    WholeFeed(enc, text);
  }

  lemma {:induction false} EndOfInput(enc: Encoding, text: seq<Byte>, events: seq<Event>)
    ensures UnitRun(enc, false, text, |text|, events) == Halt(NoToken, false, |text|, events)
  {
  }

  /** A session over the whole input, by its units. */
  lemma {:induction false} WholeFeed(enc: Encoding, text: seq<Byte>)
    ensures SameOutcome(Feed(enc, Fresh(false), text, true), Settle(UnitRun(enc, false, text, 0, []), text, 0, true))
  {
    hide UnitRun;
    hide TokRun;
    assert [] + text == text;
    TokensAreUnits(enc, false, text, 0, []);
    SettleAgrees(TokRun(enc, false, text, 0, []), UnitRun(enc, false, text, 0, []), text, 0, true);
  }
}
