/** Inputs that end too early, and tokens that may not stand in content: the error, and its place, for
    markup, characters and sections that are cut off, for a misplaced XML declaration, and for a
    reference to a number that is no character. */
module Endings {
  import opened Bytes
  import opened Characters
  import opened MarkupMachine
  import opened ContentRuns
  import opened ContentText
  import opened Documents
  import N = Names
  import M = MarkupGrammar
  import G = TagGrammar
  import T = ContentTokens

  // ----- a token that stops the run behind a text -----

  /** The run stops behind the text at a token that may not stand there, or that is not complete. */
  lemma {:induction false} StopsBehind(enc: Encoding, cs: seq<Char>, tail: seq<Byte>, chunks: seq<seq<Byte>>, r: Result)
    requires IsXmlText(cs) && IsPlain(cs) && NoneCloses(All8(cs), 0, |All8(cs)|)
    requires tail != [] && tail[0] !in {0x0a, 0x5d, 0x3e}
    requires |chunks| > 0 && Joined(chunks) == All8(cs) + tail
    requires r == T.Unit(enc, false, All8(cs) + tail, |All8(cs)|) && !MayStand(All8(cs) + tail, |All8(cs)|, r)
    requires !r.NoToken? && !r.TrailingCr? && !r.TrailingRsqb?
    ensures FeedAll(enc, Fresh(false), chunks).verdict == VerdictOf(r, false, |All8(cs)|, 0, true)
  {
    hide Feed;
    hide FeedAll;
    hide T.Unit;
    hide MayStand;
    hide Lines;
    var text, ptr := All8(cs) + tail, |All8(cs)|;
    assert text[0..] == text;
    NoneInText(text, 0, All8(cs), tail);
    TextIsRead(enc, false, text, 0, cs, tail, []);
    hide UnitRun;
    RunStops(enc, text, ptr, Lines(enc, cs, []), r);
    CutsDoNotMatter(enc, false, chunks);
    WholeFeed(enc, text);
  }

  lemma {:induction false} RunStops(enc: Encoding, text: seq<Byte>, ptr: nat, events: seq<Event>, r: Result)
    requires ptr <= |text| && r == T.Unit(enc, false, text, ptr) && !MayStand(text, ptr, r)
    ensures UnitRun(enc, false, text, ptr, events) == Halt(r, false, ptr, events)
  {
    hide T.Unit;
    hide MayStand;
  }

  /** An XML declaration behind a text is refused at its '<'. */
  lemma {:induction false} DeclarationIsMisplaced(enc: Encoding, cs: seq<Char>, m: G.Markup, rest: seq<Byte>,
                                                  chunks: seq<seq<Byte>>)
    requires IsXmlText(cs) && IsPlain(cs) && NoneCloses(All8(cs), 0, |All8(cs)|)
    requires G.GoodMarkup(enc, m) && m.Instruction? && m.target == M.XML
    requires |chunks| > 0 && Joined(chunks) == All8(cs) + (MarkupBytes(m) + rest)
    ensures FeedAll(enc, Fresh(false), chunks).verdict == Rejected(MisplacedXmlDecl, |All8(cs)|)
  {
    hide FeedAll;
    hide T.Unit;
    hide G.GoodMarkup;
    hide G.MarkupText;
    var text, ptr, tail := All8(cs) + (MarkupBytes(m) + rest), |All8(cs)|, MarkupBytes(m) + rest;
    assert text[ptr..] == tail;
    MarkupIsUnit(enc, text, ptr, m, rest);
    StopsBehind(enc, cs, tail, chunks, Token(XmlDecl, ptr + |MarkupBytes(m)|));
  }

  /** A reference to a number that is no XML character is refused at its '&'. */
  lemma {:induction false} NumberIsRefused(enc: Encoding, cs: seq<Char>, bytes: seq<Byte>, rest: seq<Byte>,
                                           chunks: seq<seq<Byte>>)
    requires IsXmlText(cs) && IsPlain(cs) && NoneCloses(All8(cs), 0, |All8(cs)|)
    requires M.IsRef(enc, CharRef, bytes) && BadReference([0x26] + bytes)
    requires |chunks| > 0 && Joined(chunks) == All8(cs) + (([0x26] + bytes) + rest)
    ensures FeedAll(enc, Fresh(false), chunks).verdict == Rejected(BadCharRef, |All8(cs)|)
  {
    hide FeedAll;
    hide T.Unit;
    hide M.IsRef;
    hide BadReference;
    var text, ptr, tail := All8(cs) + (([0x26] + bytes) + rest), |All8(cs)|, ([0x26] + bytes) + rest;
    assert text[ptr..] == tail;
    Rest(text, ptr, [0x26] + bytes, rest);
    ReferenceIsUnit(enc, text, ptr, CharRef, bytes, rest);
    StopsBehind(enc, cs, tail, chunks, Token(CharRef, ptr + 1 + |bytes|));
  }

  // ----- cut off -----

  /** What a scanner can return. */
  lemma {:induction false} ScanReturns(enc: Encoding, s: State, text: seq<Byte>, ptr: nat)
    requires ptr <= |text| && Placed(s, ptr)
    ensures var r := Scan(enc, s, text, ptr);
            if r.Token? then r.next <= |text| else r.Invalid? || r.Partial? || r.PartialChar?
    decreases |text| - ptr
  {
    hide Step;
    hide Scan;
    ScanStep(enc, s, text, ptr);
    var m := Step(enc, s, text, ptr);
    if m.To? {
      ScanReturns(enc, m.state, text, m.ptr);
    }
  }

  /** The last character is not complete. */
  predicate EndsInside(text: seq<Byte>) {
    exists p | 0 <= p < |text| :: |text| - p < N.LeadLength(text[p])
  }

  lemma {:induction false} ChecksAtTheEnd(enc: Encoding, text: seq<Byte>, ptr: nat)
    requires ptr < |text| && |text| - ptr >= N.LeadLength(text[ptr])
    ensures CheckName(enc, text, ptr) != Stop(PartialChar) && CheckNmstrt(enc, text, ptr) != Stop(PartialChar)
    ensures CheckChar(enc, text, ptr) != Stop(PartialChar)
  {
    N.TypesOfCharacters(enc, text[ptr]);
    hide TypeOf;
    hide InvalidChar;
  }

  lemma {:induction false} TagStepAtTheEnd(enc: Encoding, s: State, text: seq<Byte>, ptr: nat)
    requires ptr < |text| && |text| - ptr >= N.LeadLength(text[ptr])
    ensures s.StartName? || s.StartColon? || s.StartGap? || s.Slash? ==>
              StepStart(enc, s, text, ptr) != Done(PartialChar)
    ensures s.AttName? || s.AttColon? ==> StepAttName(enc, s, text, ptr) != Done(PartialChar)
    ensures s.AttBeforeEquals? || s.AttAfterEquals? || s.AttValue? || s.AttClose? || s.AttGap? ==>
              StepAttRest(enc, s, text, ptr) != Done(PartialChar)
  {
    ChecksAtTheEnd(enc, text, ptr);
    hide TypeOf;
    hide CheckName;
    hide CheckNmstrt;
    hide CheckChar;
  }

  lemma {:induction false} StepAtTheEnd(enc: Encoding, s: State, text: seq<Byte>, ptr: nat)
    requires ptr < |text| && Placed(s, ptr) && |text| - ptr >= N.LeadLength(text[ptr])
    ensures Step(enc, s, text, ptr) != Done(PartialChar)
  {
    ChecksAtTheEnd(enc, text, ptr);
    TagStepAtTheEnd(enc, s, text, ptr);
    hide StepStart;
    hide StepAttName;
    hide StepAttRest;
    hide TypeOf;
    hide CheckName;
    hide CheckNmstrt;
    hide CheckChar;
    hide TargetOf;
    hide Mismatch;
  }

  /** A scanner waits for the rest of a character only where the input ends inside one. */
  lemma {:induction false} WaitsForCharacter(enc: Encoding, s: State, text: seq<Byte>, ptr: nat)
    requires ptr <= |text| && Placed(s, ptr) && Scan(enc, s, text, ptr).PartialChar?
    ensures EndsInside(text)
    decreases |text| - ptr
  {
    hide Step;
    hide Scan;
    ScanStep(enc, s, text, ptr);
    var m := Step(enc, s, text, ptr);
    if m.To? {
      WaitsForCharacter(enc, m.state, text, m.ptr);
    } else {
      WaitsHere(enc, s, text, ptr);
    }
  }

  lemma {:induction false} WaitsHere(enc: Encoding, s: State, text: seq<Byte>, ptr: nat)
    requires ptr <= |text| && Placed(s, ptr) && Step(enc, s, text, ptr) == Done(PartialChar)
    ensures EndsInside(text)
  {
    if ptr < |text| {
      hide Step;
      if |text| - ptr >= N.LeadLength(text[ptr]) {
        StepAtTheEnd(enc, s, text, ptr);
      }
    }
  }

  /** Markup that is cut off is neither accepted nor found invalid. */
  lemma {:induction false} CutMarkup(enc: Encoding, text: seq<Byte>, ptr: nat, m: G.Markup, k: nat)
    requires ptr <= |text| && G.GoodMarkup(enc, m) && k < |G.MarkupText(m)| && text[ptr..] == G.MarkupText(m)[..k]
    ensures var r := Scan(enc, AfterLt, text, ptr); r.Partial? || (r.PartialChar? && EndsInside(text))
  {
    hide Scan;
    hide EndsInside;
    hide G.GoodMarkup;
    hide G.MarkupText;
    hide G.MarkupKind;
    var whole, more := G.MarkupText(m), G.MarkupText(m)[k..];
    assert (text + more)[ptr..ptr + |whole|] == text[ptr..] + more == whole;
    G.MarkupIsScanned(enc, text + more, ptr, ptr + |whole|, m);
    ScanReturns(enc, AfterLt, text, ptr);
    if !NeedsMore(Scan(enc, AfterLt, text, ptr)) {
      ScanSettled(enc, AfterLt, text, more, ptr);
    } else if Scan(enc, AfterLt, text, ptr).PartialChar? {
      WaitsForCharacter(enc, AfterLt, text, ptr);
    }
  }

  /** Input that ends inside markup is refused at the '<'. */
  lemma {:induction false} MarkupIsUnfinished(enc: Encoding, cs: seq<Char>, m: G.Markup, k: nat, chunks: seq<seq<Byte>>)
    requires IsXmlText(cs) && IsPlain(cs) && NoneCloses(All8(cs), 0, |All8(cs)|)
    requires G.GoodMarkup(enc, m) && 0 < k < |MarkupBytes(m)|
    requires |chunks| > 0 && Joined(chunks) == All8(cs) + MarkupBytes(m)[..k]
    ensures var v := FeedAll(enc, Fresh(false), chunks).verdict;
            || v == Rejected(UnclosedToken, |All8(cs)|)
            || (v == Rejected(PartialCharacter, |All8(cs)|) && EndsInside(All8(cs) + MarkupBytes(m)[..k]))
  {
    hide FeedAll;
    hide Scan;
    hide EndsInside;
    hide NoneCloses;
    hide All8;
    hide Joined;
    hide G.GoodMarkup;
    hide G.MarkupText;
    var tail := MarkupBytes(m)[..k];
    var text, ptr := All8(cs) + tail, |All8(cs)|;
    assert text[ptr + 1..] == tail[1..] == G.MarkupText(m)[..k - 1];
    CutMarkup(enc, text, ptr + 1, m, k - 1);
    LtUnit(enc, text, ptr);
    hide T.Unit;
    StopsBehind(enc, cs, tail, chunks, Scan(enc, AfterLt, text, ptr + 1));
  }

  lemma {:induction false} LtUnit(enc: Encoding, text: seq<Byte>, ptr: nat)
    requires ptr < |text| && text[ptr] == 0x3c
    ensures T.Unit(enc, false, text, ptr) == Scan(enc, AfterLt, text, ptr + 1)
  {
    hide Scan;
    N.TypesOfMarkup(enc, text[ptr]);
    hide TypeOf;
  }

  /** Input that ends inside a character is refused at its first byte. */
  lemma {:induction false} CharacterIsUnfinished(enc: Encoding, cs: seq<Char>, c: Char, k: nat, chunks: seq<seq<Byte>>)
    requires IsXmlText(cs) && IsPlain(cs) && NoneCloses(All8(cs), 0, |All8(cs)|)
    requires 0 < k < |Utf8(c)| && |chunks| > 0 && Joined(chunks) == All8(cs) + Utf8(c)[..k]
    ensures FeedAll(enc, Fresh(false), chunks).verdict == Rejected(PartialCharacter, |All8(cs)|)
  {
    hide FeedAll;
    LeadsByLength(enc, c);
    var tail := Utf8(c)[..k];
    var text, ptr := All8(cs) + tail, |All8(cs)|;
    assert text[ptr] == tail[0] == Utf8(c)[0];
    hide Utf8;
    CutCharacter(enc, text, ptr, |tail|);
    hide T.Unit;
    StopsBehind(enc, cs, tail, chunks, PartialChar);
  }

  lemma {:induction false} CutCharacter(enc: Encoding, text: seq<Byte>, ptr: nat, k: nat)
    requires ptr < |text| == ptr + k && IsLead(TypeOf(enc, text[ptr])) && k < Width(TypeOf(enc, text[ptr]))
    ensures T.Unit(enc, false, text, ptr) == PartialChar && text[ptr] >= 0x80
  {
  }

  // ----- a section that is never closed -----

  predicate RunsOut(h: Halt) {
    h.cdata && (h.result.NoToken? || h.result.Partial?)
  }

  lemma {:induction false} SectionRunsOut(enc: Encoding, text: seq<Byte>, ptr: nat, cs: seq<Char>, events: seq<Event>)
    requires ptr <= |text| && text[ptr..] == All8(cs) && IsXmlText(cs) && NoneCloses(text, ptr, |text|)
    ensures RunsOut(UnitRun(enc, true, text, ptr, events))
    decreases |cs|
  {
    hide UnitRun;
    hide Report;
    hide First;
    hide Taken;
    if |cs| == 0 {
      AtTheEnd(enc, text, ptr, events);
    } else if !Told(enc, cs, []) {
      UntoldSection(enc, text, ptr, cs, events);
    } else {
      assert All8(cs) + [] == All8(cs);
      TextBehind(enc, text, ptr, cs);
      FirstBytes(enc, cs, []);
      TextStep(enc, true, text, ptr, cs, [], events);
      SectionRunsOut(enc, text, ptr + |First(enc, cs).text|, cs[Taken(enc, cs)..], Report(events, First(enc, cs)));
    }
  }

  lemma {:induction false} AtTheEnd(enc: Encoding, text: seq<Byte>, ptr: nat, events: seq<Event>)
    requires ptr == |text|
    ensures RunsOut(UnitRun(enc, true, text, ptr, events))
  {
  }

  lemma {:induction false} UntoldSection(enc: Encoding, text: seq<Byte>, ptr: nat, cs: seq<Char>, events: seq<Event>)
    requires ptr <= |text| && text[ptr..] == All8(cs) && |cs| > 0 && !Told(enc, cs, [])
    ensures RunsOut(UnitRun(enc, true, text, ptr, events))
  {
    hide Report;
    AllOne(cs[0]);
    assert text[ptr] == text[ptr..][0];
    if cs == [0x5d, 0x5d] {
      TwoChars(cs);
      assert text[ptr..] == [0x5d, 0x5d];
      assert text[ptr + 1] == text[ptr..][1];
      BracketUnit(enc, true, text, ptr);
    } else {
      assert cs == [cs[0]];
      assert text[ptr..] == [cs[0]];
      if cs[0] == 0x5d {
        BracketUnit(enc, true, text, ptr);
      } else {
        NewlineUnit(enc, true, text, ptr);
      }
    }
  }

  /** Input that ends inside a section is refused. */
  lemma {:induction false} SectionIsUnclosed(enc: Encoding, cs: seq<Char>, chunks: seq<seq<Byte>>)
    requires IsXmlText(cs) && NoneCloses(All8(cs), 0, |All8(cs)|)
    requires |chunks| > 0 && Joined(chunks) == CDATA_OPEN + All8(cs)
    ensures FeedAll(enc, Fresh(false), chunks).verdict.Rejected?
    ensures FeedAll(enc, Fresh(false), chunks).verdict.error == UnclosedCdataSection
  {
    hide Feed;
    hide FeedAll;
    hide UnitRun;
    hide All8;
    SectionIsEntered(enc, cs);
    CutsDoNotMatter(enc, false, chunks);
    WholeFeed(enc, CDATA_OPEN + All8(cs));
  }

  lemma {:induction false} SectionIsEntered(enc: Encoding, cs: seq<Char>)
    requires IsXmlText(cs) && NoneCloses(All8(cs), 0, |All8(cs)|)
    ensures RunsOut(UnitRun(enc, false, CDATA_OPEN + All8(cs), 0, []))
  {
    hide T.Unit;
    hide UnitRun;
    hide Report;
    var text := CDATA_OPEN + All8(cs);
    assert text[..9] == CDATA_OPEN && text[9..] == All8(cs);
    SectionOpens(enc, text, 0);
    NextUnit(enc, false, text, 0, [], Token(CdataSectOpen, 9));
    forall i | 9 <= i < |text|
      ensures !ClosesAt(text, i)
    {
      assert !ClosesAt(All8(cs), i - 9);
    }
    SectionRunsOut(enc, text, 9, cs, Report([], Event(CdataSectOpen, text[0..9])));
  }
}
