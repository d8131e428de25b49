/** The tags among the tokens of the content, and the parser that follows them. */
module TagNames {
  import opened Bytes
  import opened MarkupMachine
  import opened ContentTokens
  import opened ContentRuns
  import A = AttributeTokens
  import S = StartTags
  import W = TagWords

  // ----- the name in a tag -----

  predicate IsNameType(t: ByteType) {
    t.NmStrt? || t.Colon? || t.Hex? || t.Digit? || t.Name? || t.Minus?
  }

  /** The end of the name at ptr. */
  function NameEnd(enc: Encoding, text: seq<Byte>, ptr: nat): (end: nat)
    requires ptr <= |text|
    ensures ptr <= end <= |text|
    decreases |text| - ptr
  {
    if ptr == |text| then ptr
    else
      var t := TypeOf(enc, text[ptr]);
      if IsLead(t) && ptr + Width(t) <= |text| then NameEnd(enc, text, ptr + Width(t))
      else if IsNameType(t) then NameEnd(enc, text, ptr + 1)
      else ptr
  }

  /** A byte that is in no name ends the name before `next`. */
  predicate EndsInside(enc: Encoding, text: seq<Byte>, ptr: nat, next: nat)
    requires ptr <= |text|
  {
    var end := NameEnd(enc, text, ptr);
    end < next <= |text| && !IsNameType(TypeOf(enc, text[end])) && !IsLead(TypeOf(enc, text[end]))
  }

  lemma {:induction false} LaterEnd(enc: Encoding, text: seq<Byte>, ptr: nat, next: nat)
    requires ptr <= |text| && EndsInside(enc, text, ptr, next)
    ensures EndsInside(enc, text, ptr, |text|)
  {
  }

  function NameAt(enc: Encoding, text: seq<Byte>, ptr: nat): W.RawName {
    if ptr <= |text| then text[ptr..NameEnd(enc, text, ptr)] else []
  }

  /** XmlNameLength, which does not look for the end of the input. */
  method NameLength(enc: Encoding, text: seq<Byte>, start: nat) returns (n: nat)
    requires start <= |text| && EndsInside(enc, text, start, |text|)
    ensures n == NameEnd(enc, text, start) - start
  {
    hide TypeOf;
    var ptr := start;
    while true
      invariant start <= ptr < |text| && NameEnd(enc, text, ptr) == NameEnd(enc, text, start)
      decreases |text| - ptr
    {
      var t := TypeOf(enc, text[ptr]);
      if t.Lead2? || t.Lead3? || t.Lead4? {
        ptr := ptr + Width(t);
      } else if t.NmStrt? || t.Colon? || t.Hex? || t.Digit? || t.Name? || t.Minus? {
        ptr := ptr + 1;
      } else {
        return ptr - start;
      }
    }
  }

  /** Inside the name of a tag, what the scanner goes on with is what belongs to the name. */
  lemma {:induction false} NameStep(enc: Encoding, s: State, text: seq<Byte>, ptr: nat)
    requires ptr < |text| && (s.StartName? || s.StartColon? || s.EndName?)
    ensures var m := if s.EndName? then StepEnd(enc, s, text, ptr) else StepStart(enc, s, text, ptr);
            && (m.To? && (m.state.StartName? || m.state.StartColon? || m.state.EndName?) ==>
                  ptr < m.ptr <= |text| && NameEnd(enc, text, ptr) == NameEnd(enc, text, m.ptr))
            && ((m.To? && !m.state.StartName? && !m.state.StartColon? && !m.state.EndName?)
                || (m.Done? && m.result.Token?) ==>
                  && NameEnd(enc, text, ptr) == ptr
                  && !IsNameType(TypeOf(enc, text[ptr])) && !IsLead(TypeOf(enc, text[ptr])))
  {
    hide TypeOf;
    CharSettled(enc, text, [], ptr);
  }

  lemma {:induction false} NameScanned(enc: Encoding, s: State, text: seq<Byte>, ptr: nat)
    requires ptr <= |text| && (s.StartName? || s.StartColon? || s.EndName?)
    requires Scan(enc, s, text, ptr).Token?
    ensures EndsInside(enc, text, ptr, Scan(enc, s, text, ptr).next)
    decreases |text| - ptr
  {
    hide Scan;
    hide StepStart;
    hide StepEnd;
    hide TypeOf;
    ScanStep(enc, s, text, ptr);
    if ptr < |text| {
      NameStep(enc, s, text, ptr);
      var m := Step(enc, s, text, ptr);
      if m.To? {
        if m.state.StartName? || m.state.StartColon? || m.state.EndName? {
          NameScanned(enc, m.state, text, m.ptr);
        } else {
          ScanStep(enc, m.state, text, m.ptr);
        }
      }
    }
  }

  /** Places from which an end tag can be reached. */
  predicate InEndTag(s: State) {
    s.AfterLt? || s.EndStart? || s.EndName? || s.EndGap?
  }

  lemma {:induction false} OtherStepEnds(enc: Encoding, s: State, text: seq<Byte>, ptr: nat)
    requires ptr <= |text| && Placed(s, ptr) && !InEndTag(s)
    ensures var m := Step(enc, s, text, ptr);
            if m.To? then !InEndTag(m.state) else m.result.Token? ==> !m.result.kind.EndTag?
  {
    hide TypeOf;
    hide CheckName;
    hide CheckNmstrt;
    hide CheckChar;
    hide TargetOf;
    hide Mismatch;
    if ptr < |text| {
      CharSettled(enc, text, [], ptr);
    }
  }

  lemma {:induction false} OtherIsNoEndTag(enc: Encoding, s: State, text: seq<Byte>, ptr: nat)
    requires ptr <= |text| && Placed(s, ptr) && !InEndTag(s)
    ensures var r := Scan(enc, s, text, ptr); r.Token? ==> !r.kind.EndTag?
    decreases |text| - ptr
  {
    hide Step;
    hide Scan;
    ScanStep(enc, s, text, ptr);
    OtherStepEnds(enc, s, text, ptr);
    var m := Step(enc, s, text, ptr);
    if m.To? {
      OtherIsNoEndTag(enc, m.state, text, m.ptr);
    }
  }

  /** The first characters of a tag, and its name behind them. */
  lemma {:induction false} TagBegins(enc: Encoding, text: seq<Byte>, ptr: nat)
    requires ptr <= |text| && Scan(enc, AfterLt, text, ptr).Token?
    ensures var r := Scan(enc, AfterLt, text, ptr);
            && (S.IsStartTag(r.kind) ==> EndsInside(enc, text, ptr, r.next))
            && (r.kind.EndTag? ==> ptr < |text| && EndsInside(enc, text, ptr + 1, r.next))
  {
    hide Scan;
    hide TypeOf;
    hide EndsInside;
    ScanStep(enc, AfterLt, text, ptr);
    if ptr < |text| {
      CharSettled(enc, text, [], ptr);
      var m := StepLt(enc, text, ptr);
      if m.To? {
        if m.state.StartName? {
          NameScanned(enc, m.state, text, m.ptr);
          OtherIsNoEndTag(enc, m.state, text, m.ptr);
          NameGoesOn(enc, text, ptr, m.ptr, Scan(enc, m.state, text, m.ptr).next);
        } else {
          S.OtherIsNoStartTag(enc, m.state, text, m.ptr);
          if m.state.EndStart? {
            EndTagBegins(enc, text, m.ptr);
          } else {
            OtherIsNoEndTag(enc, m.state, text, m.ptr);
          }
        }
      }
    }
  }

  lemma {:induction false} EndTagBegins(enc: Encoding, text: seq<Byte>, ptr: nat)
    requires ptr <= |text| && Scan(enc, EndStart, text, ptr).Token?
    ensures EndsInside(enc, text, ptr, Scan(enc, EndStart, text, ptr).next)
  {
    hide Scan;
    hide TypeOf;
    hide EndsInside;
    ScanStep(enc, EndStart, text, ptr);
    if ptr < |text| {
      CharSettled(enc, text, [], ptr);
      var m := StepEnd(enc, EndStart, text, ptr);
      if m.To? {
        NameScanned(enc, EndName, text, m.ptr);
        NameGoesOn(enc, text, ptr, m.ptr, Scan(enc, EndName, text, m.ptr).next);
      }
    }
  }

  /** The first character of a name. */
  lemma {:induction false} NameGoesOn(enc: Encoding, text: seq<Byte>, ptr: nat, more: nat, next: nat)
    requires ptr < |text| && CheckNmstrt(enc, text, ptr) == Go(more) && more <= |text|
    requires EndsInside(enc, text, more, next)
    ensures EndsInside(enc, text, ptr, next)
  {
    hide TypeOf;
    var t := TypeOf(enc, text[ptr]);
    assert IsLead(t) ==> ptr + Width(t) == more;
  }

  // ----- tags in a run of tokens -----

  /** The tag a token is, if it is one. */
  function TagOf(enc: Encoding, e: Event): seq<W.Tag> {
    match e.kind
    case StartTagWithAtts | StartTagNoAtts => [W.Open(NameAt(enc, e.text, 1))]
    case EmptyElementWithAtts | EmptyElementNoAtts => [W.Single(NameAt(enc, e.text, 1))]
    case EndTag => [W.Close(NameAt(enc, e.text, 2))]
    case _ => []
  }

  function TagsOf(enc: Encoding, events: seq<Event>): seq<W.Tag> {
    if |events| == 0 then [] else TagsOf(enc, events[..|events| - 1]) + TagOf(enc, events[|events| - 1])
  }

  /** The progress of the tags in these events. */
  function TagProgress(enc: Encoding, events: seq<Event>): W.Progress {
    W.Follow(W.BEGIN, TagsOf(enc, events))
  }

  lemma {:induction false} TagsOfReport(enc: Encoding, events: seq<Event>, e: Event)
    ensures TagsOf(enc, Report(events, e)) == TagsOf(enc, events) + TagOf(enc, e)
  {
    hide NameAt;
    var all := Report(events, e);
    if e.kind.DataChars? && |events| > 0 && events[|events| - 1].kind.DataChars? {
      assert all[..|all| - 1] == events[..|events| - 1];
    } else {
      assert all[..|all| - 1] == events;
    }
  }

  /** Data says nothing about tags. */
  lemma {:induction false} TagsOfMarkup(enc: Encoding, events: seq<Event>)
    ensures TagsOf(enc, Markup(events)) == TagsOf(enc, events)
  {
    hide NameAt;
    if |events| > 0 {
      var before, e := events[..|events| - 1], events[|events| - 1];
      TagsOfMarkup(enc, before);
      var m := Markup(before) + [e];
      assert m[..|m| - 1] == Markup(before);
    }
  }

  /** One more token: the next step, if it is a tag. */
  lemma {:induction false} AfterReport(enc: Encoding, events: seq<Event>, e: Event)
    ensures TagProgress(enc, Report(events, e)) ==
            if |TagOf(enc, e)| == 0 then TagProgress(enc, events)
            else W.Next(TagProgress(enc, events), TagOf(enc, e)[0])
  {
    hide NameAt;
    hide W.Next;
    var ts, t := TagsOf(enc, events), TagOf(enc, e);
    TagsOfReport(enc, events, e);
    if |t| == 0 {
      assert ts + t == ts;
    } else {
      assert (ts + t)[..|ts + t| - 1] == ts;
    }
  }

  /** Once the tags have stopped the parser, no later token matters. */
  lemma {:induction false} StoppedRun(enc: Encoding, cdata: bool, text: seq<Byte>, ptr: nat, events: seq<Event>)
    requires ptr <= |text| && !TagProgress(enc, events).stage.Inside?
    ensures TagProgress(enc, TokRun(enc, cdata, text, ptr, events).events) == TagProgress(enc, events)
    decreases |text| - ptr
  {
    hide Tok;
    hide TagProgress;
    hide Report;
    TokForward(enc, cdata, text, ptr);
    var r := Tok(enc, cdata, text, ptr);
    if MayStand(text, ptr, r) {
      var e := Event(r.kind, text[ptr..r.next]);
      AfterReport(enc, events, e);
      StoppedRun(enc, ModeAfter(r.kind, cdata), text, r.next, Report(events, e));
    }
  }

  /** The end of the input adds no tag. */
  lemma {:induction false} AfterSettle(enc: Encoding, h: Halt, buffer: seq<Byte>, base: nat, isFinal: bool)
    requires h.ptr <= |buffer|
    ensures TagProgress(enc, Settle(h, buffer, base, isFinal).events) == TagProgress(enc, h.events)
  {
    hide TagProgress;
    hide Report;
    AfterReport(enc, h.events, Event(DataNewline, buffer[h.ptr..]));
    AfterReport(enc, h.events, Event(DataChars, buffer[h.ptr..]));
  }

  lemma {:induction false} StoppedFeed(enc: Encoding, s: Session, chunk: seq<Byte>, isFinal: bool)
    requires !TagProgress(enc, s.events).stage.Inside?
    ensures TagProgress(enc, Feed(enc, s, chunk, isFinal).events) == TagProgress(enc, s.events)
  {
    hide TagProgress;
    hide TokRun;
    hide Settle;
    if s.verdict.Going? {
      var buffer := s.leftover + chunk;
      StoppedRun(enc, s.cdata, buffer, 0, s.events);
      AfterSettle(enc, TokRun(enc, s.cdata, buffer, 0, s.events), buffer, s.base, isFinal);
    }
  }

  lemma {:induction false} StoppedFeeds(enc: Encoding, s: Session, chunks: seq<seq<Byte>>)
    requires |chunks| > 0 && (!TagProgress(enc, s.events).stage.Inside? || !s.verdict.Going?)
    ensures TagProgress(enc, FeedAll(enc, s, chunks).events) == TagProgress(enc, s.events)
    decreases |chunks|
  {
    hide TagProgress;
    hide TokRun;
    hide Settle;
    if s.verdict.Going? {
      StoppedFeed(enc, s, chunks[0], |chunks| == 1);
    }
    if |chunks| > 1 {
      StoppedFeeds(enc, Feed(enc, s, chunks[0], false), chunks[1..]);
    }
  }

  lemma {:induction false} RefusedFeeds(enc: Encoding, s: Session, chunks: seq<seq<Byte>>)
    requires |chunks| > 0 && !s.verdict.Going?
    ensures FeedAll(enc, s, chunks) == s
    decreases |chunks|
  {
    if |chunks| > 1 {
      RefusedFeeds(enc, s, chunks[1..]);
    }
  }

  /** The tags, and what they mean, do not depend on the cuts, even when the input is refused later. */
  lemma {:induction false} CutsKeepTags(enc: Encoding, chunks: seq<seq<Byte>>)
    requires |chunks| > 0
    ensures TagProgress(enc, FeedAll(enc, Fresh(false), chunks).events) ==
            TagProgress(enc, Feed(enc, Fresh(false), Joined(chunks), true).events)
  {
    hide Feed;
    hide FeedAll;
    CutsDoNotMatter(enc, false, chunks);
    TagsOfMarkup(enc, FeedAll(enc, Fresh(false), chunks).events);
    TagsOfMarkup(enc, Feed(enc, Fresh(false), Joined(chunks), true).events);
  }

  /** Behind '<' or behind "</". */
  predicate NameStandsAt(k: Kind, skip: nat) {
    if k.EndTag? then skip == 2 else S.IsStartTag(k) && skip == 1
  }

  /** A tag among the tokens: its name in the input is the name of the event. */
  lemma {:induction false} TokenName(enc: Encoding, text: seq<Byte>, ptr: nat, skip: nat)
    requires ptr <= |text| && Tok(enc, false, text, ptr).Token?
    requires NameStandsAt(Tok(enc, false, text, ptr).kind, skip)
    ensures var r := Tok(enc, false, text, ptr);
            && ptr + skip < r.next <= |text| && EndsInside(enc, text, ptr + skip, r.next)
            && NameAt(enc, text[ptr..r.next], skip) == text[ptr + skip..NameEnd(enc, text, ptr + skip)]
  {
    hide TypeOf;
    hide NameEnd;
    hide Scan;
    hide Tok;
    TokForward(enc, false, text, ptr);
    var r := Tok(enc, false, text, ptr);
    TagIsMarkup(enc, text, ptr);
    TagBegins(enc, text, ptr + 1);
    NameShifts(enc, text, ptr, r.next, skip);
    var end := NameEnd(enc, text, ptr + skip);
    assert text[ptr..r.next][skip..end - ptr] == text[ptr + skip..end];
  }

  lemma {:induction false} TagIsMarkup(enc: Encoding, text: seq<Byte>, ptr: nat)
    requires ptr <= |text| && Tok(enc, false, text, ptr).Token?
    requires Tok(enc, false, text, ptr).kind.EndTag? || S.IsStartTag(Tok(enc, false, text, ptr).kind)
    ensures ptr < |text| && Tok(enc, false, text, ptr) == Scan(enc, AfterLt, text, ptr + 1)
  {
    hide Scan;
    hide TypeOf;
    hide DataRun;
    var t := TypeOf(enc, text[ptr]);
    if t.Amp? {
      A.RefKinds(enc, text, ptr);
    }
  }

  lemma {:induction false} NameShifts(enc: Encoding, text: seq<Byte>, ptr: nat, next: nat, k: nat)
    requires ptr + k <= next <= |text| && EndsInside(enc, text, ptr + k, next)
    ensures ptr + NameEnd(enc, text[ptr..next], k) == NameEnd(enc, text, ptr + k)
    decreases next - ptr - k
  {
    hide TypeOf;
    var t := TypeOf(enc, text[ptr + k]);
    assert ptr + k < next;
    assert text[ptr..next][k] == text[ptr + k];
    if IsLead(t) && ptr + k + Width(t) <= |text| {
      NameShifts(enc, text, ptr, next, k + Width(t));
    } else if IsNameType(t) {
      NameShifts(enc, text, ptr, next, k + 1);
    }
  }
}

/** The parser that follows the tags, piece by piece. */
module TagRuns {
  import opened Bytes
  import opened MarkupMachine
  import opened ContentTokens
  import opened ContentRuns
  import opened TagNames
  import S = StartTags
  import T = TagStacks
  import W = TagWords

  /** One token of the content that doContent or doCdataSection has found at ptr. */
  method FollowToken(p: T.TagParser, enc: Encoding, kind: Kind, ptr: nat, next: nat)
    requires p.Valid() && p.stage.Inside? && ptr < next <= |p.memory[p.window]|
    requires |TagOf(enc, Event(kind, p.memory[p.window][ptr..next]))| > 0 ==>
               Tok(enc, false, p.memory[p.window], ptr) == Token(kind, next)
    modifies p, p.Tags()
    ensures p.Valid() && fresh(p.Tags() - old(p.Tags())) && p.memory[p.window] == old(p.memory[p.window])
    ensures var t := TagOf(enc, Event(kind, p.memory[p.window][ptr..next]));
            p.View() == if |t| == 0 then old(p.View()) else W.Next(old(p.View()), t[0])
  {
    hide T.Lists;
    hide T.Contents;
    hide T.StoredFirst;
    hide W.Next;
    hide Tok;
    hide NameAt;
    hide EndsInside;
    if S.IsStartTag(kind) || kind.EndTag? {
      var skip := if kind.EndTag? then 2 else 1;
      TokenName(enc, p.memory[p.window], ptr, skip);
      LaterEnd(enc, p.memory[p.window], ptr + skip, next);
      var n := NameLength(enc, p.memory[p.window], ptr + skip);
      if kind.EndTag? {
        p.EndTag(ptr + skip, n);
      } else if kind.StartTagWithAtts? || kind.StartTagNoAtts? {
        p.StartTag(ptr + skip, n);
      } else {
        p.EmptyElement(ptr + skip, n);
      }
    }
  }

  /** A token of a CDATA section is no tag. */
  lemma {:induction false} CdataIsNoTag(enc: Encoding, cdata: bool, text: seq<Byte>, ptr: nat)
    requires ptr <= |text| && Tok(enc, cdata, text, ptr).Token?
    ensures var r := Tok(enc, cdata, text, ptr);
            cdata && r.next <= |text| && ptr <= r.next ==> |TagOf(enc, Event(r.kind, text[ptr..r.next]))| == 0
  {
    hide NameAt;
    hide TypeOf;
    hide CheckChar;
    UnitForward(enc, cdata, text, ptr);
    if cdata && ptr < |text| {
      CharSettled(enc, text, [], ptr);
    }
  }

  /** One turn of the loop: the next token, which is followed if it is a tag. */
  method NextToken(p: T.TagParser, enc: Encoding, cdata: bool, ptr: nat, ghost events: seq<Event>)
    returns (goesOn: bool, result: Result)
    requires p.Valid() && p.stage.Inside? && ptr <= |p.memory[p.window]| && p.View() == TagProgress(enc, events)
    modifies p, p.Tags()
    ensures p.Valid() && fresh(p.Tags() - old(p.Tags())) && p.memory[p.window] == old(p.memory[p.window])
    ensures result == Tok(enc, cdata, p.memory[p.window], ptr)
    ensures goesOn == MayStand(p.memory[p.window], ptr, result)
    ensures !goesOn ==> p.View() == old(p.View())
    ensures goesOn ==>
              && ptr < result.next <= |p.memory[p.window]|
              && p.View() == TagProgress(enc, Report(events, Event(result.kind, p.memory[p.window][ptr..result.next])))
  {
    hide T.Lists;
    hide T.Contents;
    hide T.StoredFirst;
    hide W.Next;
    hide Tok;
    hide TagProgress;
    hide TagOf;
    hide Report;
    var text := p.memory[p.window];
    TokForward(enc, cdata, text, ptr);
    if cdata {
      result := CdataSectionTok(enc, text, ptr);
      CdataTokens(enc, text, ptr);
      goesOn := result.Token?;
    } else {
      result := ContentTok(enc, text, ptr);
      goesOn := Check(enc, text, ptr, result);
    }
    if goesOn {
      CdataIsNoTag(enc, cdata, text, ptr);
      AfterReport(enc, events, Event(result.kind, text[ptr..result.next]));
      FollowToken(p, enc, result.kind, ptr, result.next);
    }
  }

  /** The loop over the parse buffer, which ends early when a tag stops the parser. */
  method DoContent(p: T.TagParser, enc: Encoding, start: nat, cdata: bool, ghost events: seq<Event>)
    returns (ptr: nat, result: Result, mode: bool, ghost all: seq<Event>)
    requires p.Valid() && p.stage.Inside? && start <= |p.memory[p.window]| && p.View() == TagProgress(enc, events)
    modifies p, p.Tags()
    ensures p.Valid() && fresh(p.Tags() - old(p.Tags())) && p.memory[p.window] == old(p.memory[p.window])
    ensures p.View() == TagProgress(enc, TokRun(enc, cdata, p.memory[p.window], start, events).events)
    ensures p.stage.Inside? ==> TokRun(enc, cdata, p.memory[p.window], start, events) == Halt(result, mode, ptr, all)
  {
    hide T.Lists;
    hide T.Contents;
    hide T.StoredFirst;
    hide Tok;
    hide TagProgress;
    hide Report;
    ghost var text := p.memory[p.window];
    ptr, mode, all := start, cdata, events;
    while true
      invariant p.Valid() && p.stage.Inside? && fresh(p.Tags() - old(p.Tags())) && p.memory[p.window] == text
      invariant ptr <= |text| && p.View() == TagProgress(enc, all)
      invariant TokRun(enc, cdata, text, start, events) == TokRun(enc, mode, text, ptr, all)
      decreases |text| - ptr
    {
      TokForward(enc, mode, text, ptr);
      var goesOn;
      goesOn, result := NextToken(p, enc, mode, ptr, all);
      if !goesOn {
        return;
      }
      all := Report(all, Event(result.kind, text[ptr..result.next]));
      mode := ModeAfter(result.kind, mode);
      ptr := result.next;
      if !p.stage.Inside? {
        StoppedRun(enc, mode, text, ptr, all);
        return;
      }
    }
  }

  /** The word the tags of the whole input make, however it is cut. */
  lemma {:induction false} WordOfInput(enc: Encoding, chunks: seq<seq<Byte>>)
    requires |chunks| > 0
    ensures var word := TagsOf(enc, Feed(enc, Fresh(false), Joined(chunks), true).events);
            && TagProgress(enc, FeedAll(enc, Fresh(false), chunks).events) == W.Follow(W.BEGIN, word)
            && (W.Follow(W.BEGIN, word).stage.Ended? <==> exists k: nat, n :: W.IsElement(word, k, n))
            && (forall k: nat, n :: W.IsElement(word, k, n) ==> W.Follow(W.BEGIN, word).events == W.EventsOf(n))
  {
    hide Feed;
    hide FeedAll;
    hide W.Follow;
    hide W.IsElement;
    CutsKeepTags(enc, chunks);
    W.EndsExactly(TagsOf(enc, Feed(enc, Fresh(false), Joined(chunks), true).events));
  }

  lemma {:induction false} NothingRead(enc: Encoding)
    ensures TagProgress(enc, []) == W.BEGIN
  {
  }

  /** The tags behind a piece are those of the run over it, and what is kept is what that run has left. */
  lemma {:induction false} AfterFeed(enc: Encoding, s: Session, chunk: seq<Byte>, isFinal: bool)
    requires s.verdict.Going?
    ensures var buffer, t := s.leftover + chunk, Feed(enc, s, chunk, isFinal);
            var h := TokRun(enc, s.cdata, buffer, 0, s.events);
            && TagProgress(enc, t.events) == TagProgress(enc, h.events)
            && t.verdict == VerdictOf(h.result, h.cdata, h.ptr, s.base, isFinal)
            && (t.verdict.Going? ==> t.leftover == buffer[h.ptr..] && t.base == s.base + h.ptr && t.cdata == h.cdata)
  {
    hide TokRun;
    hide TagProgress;
    var buffer := s.leftover + chunk;
    AfterSettle(enc, TokRun(enc, s.cdata, buffer, 0, s.events), buffer, s.base, isFinal);
  }

  /** When the last piece has been read, or nothing more matters, no later piece changes the tags or the verdict. */
  lemma {:induction false} LastFeed(enc: Encoding, s: Session, chunks: seq<seq<Byte>>)
    requires |chunks| > 0
    requires || |chunks| == 1 || !Feed(enc, s, chunks[0], false).verdict.Going?
             || !TagProgress(enc, Feed(enc, s, chunks[0], false).events).stage.Inside?
    ensures TagProgress(enc, FeedAll(enc, s, chunks).events) ==
            TagProgress(enc, Feed(enc, s, chunks[0], |chunks| == 1).events)
    ensures || |chunks| == 1 || !Feed(enc, s, chunks[0], false).verdict.Going?
            ==> FeedAll(enc, s, chunks).verdict == Feed(enc, s, chunks[0], |chunks| == 1).verdict
  {
    hide Feed;
    hide TagProgress;
    if |chunks| > 1 {
      var t := Feed(enc, s, chunks[0], false);
      StoppedFeeds(enc, t, chunks[1..]);
      if !t.verdict.Going? {
        RefusedFeeds(enc, t, chunks[1..]);
      }
    }
  }

  /** One piece of input; behind it the raw names are stored, unless the parser stops here. */
  method ParsePiece(p: T.TagParser, enc: Encoding, leftover: seq<Byte>, base: nat, cdata: bool, chunk: seq<Byte>,
                    isFinal: bool, moves: bool, ghost s: Session)
    returns (verdict: Verdict, rest: seq<Byte>, at: nat, mode: bool)
    requires p.Valid() && p.AllStored() && p.stage.Inside? && p.View() == TagProgress(enc, s.events)
    requires s.verdict.Going? && leftover == s.leftover && base == s.base && cdata == s.cdata
    modifies p, p.Tags()
    ensures p.Valid() && fresh(p.Tags() - old(p.Tags()))
    ensures var t := Feed(enc, s, chunk, isFinal);
            && p.View() == TagProgress(enc, t.events)
            && (p.stage.Inside? ==> verdict == t.verdict)
            && (p.stage.Inside? && verdict.Going? ==>
                  p.AllStored() && rest == t.leftover && at == t.base && mode == t.cdata)
  {
    hide T.Lists;
    hide T.Contents;
    hide T.StoredFirst;
    hide TokRun;
    hide TagProgress;
    hide Feed;
    AfterFeed(enc, s, chunk, isFinal);
    var buffer := leftover + chunk;
    p.NewInput(buffer, moves);
    var ptr, result;
    ghost var all;
    ptr, result, mode, all := DoContent(p, enc, 0, cdata, s.events);
    rest, at := buffer, base + ptr;
    verdict := VerdictOf(result, mode, ptr, base, isFinal);
    if p.stage.Inside? && verdict.Going? {
      p.StoreRawNames();
      rest := buffer[ptr..];
    }
  }

  lemma {:induction false} FeedAllStep(enc: Encoding, s: Session, chunks: seq<seq<Byte>>)
    requires |chunks| > 1
    ensures FeedAll(enc, s, chunks) == FeedAll(enc, Feed(enc, s, chunks[0], false), chunks[1..])
  {
    hide Feed;
  }

  /** The pieces in order, as long as the parser goes on. */
  method FeedPieces(p: T.TagParser, enc: Encoding, chunks: seq<seq<Byte>>, moves: nat -> bool)
    returns (verdict: Verdict)
    requires p.Valid() && p.AllStored() && p.View() == W.BEGIN && |chunks| > 0
    modifies p, p.Tags()
    ensures p.Valid() && p.View() == TagProgress(enc, FeedAll(enc, Fresh(false), chunks).events)
    ensures p.stage.Inside? ==> verdict == FeedAll(enc, Fresh(false), chunks).verdict
  {
    hide T.Lists;
    hide T.Contents;
    hide T.StoredFirst;
    hide Feed;
    hide FeedAll;
    NothingRead(enc);
    hide TagProgress;
    var i: nat, leftover: seq<Byte>, base: nat, cdata := 0, [], 0, false;
    ghost var s := Fresh(false);
    ghost var rest := chunks;
    while true
      invariant p.Valid() && p.AllStored() && p.stage.Inside? && fresh(p.Tags() - old(p.Tags()))
      invariant i < |chunks| && rest == chunks[i..]
      invariant s.verdict.Going? && leftover == s.leftover && base == s.base && cdata == s.cdata
      invariant p.View() == TagProgress(enc, s.events)
      invariant FeedAll(enc, Fresh(false), chunks) == FeedAll(enc, s, rest)
      decreases |chunks| - i
    {
      var isFinal := i + 1 == |chunks|;
      verdict, leftover, base, cdata := ParsePiece(p, enc, leftover, base, cdata, chunks[i], isFinal, moves(i), s);
      if isFinal || !p.stage.Inside? || !verdict.Going? {
        LastFeed(enc, s, rest);
        return;
      }
      FeedAllStep(enc, s, rest);
      s, rest := Feed(enc, s, chunks[i], false), rest[1..];
      i := i + 1;
    }
  }

  /**
   * Any number of pieces, each in the old parse buffer or in another one: what is reported, and
   * whether a tag stops the parser, is what the tags of the whole input say.  The outermost element
   * ends exactly when they begin with those of an element, and then that element is what has been
   * reported.  When no tag stops the parser, the verdict is the one on the whole input; Exhausted
   * means that the outermost element is missing or unfinished.
   */
  method ParseAll(p: T.TagParser, enc: Encoding, chunks: seq<seq<Byte>>, moves: nat -> bool)
    returns (verdict: Verdict)
    requires p.Valid() && p.AllStored() && p.View() == W.BEGIN && |chunks| > 0
    modifies p, p.Tags()
    ensures p.Valid()
    ensures var whole := Feed(enc, Fresh(false), Joined(chunks), true);
            var word := TagsOf(enc, whole.events);
            && p.View() == W.Follow(W.BEGIN, word)
            && (p.stage.Inside? ==> verdict == whole.verdict)
            && (p.stage.Ended? <==> exists k: nat, n :: W.IsElement(word, k, n))
            && (forall k: nat, n :: W.IsElement(word, k, n) ==> p.events == W.EventsOf(n))
  {
    hide T.Lists;
    hide T.Contents;
    hide T.StoredFirst;
    hide Feed;
    hide FeedAll;
    hide W.IsElement;
    WordOfInput(enc, chunks);
    CutsDoNotMatter(enc, false, chunks);
    verdict := FeedPieces(p, enc, chunks, moves);
  }
}
