/** Content that arrives in pieces (doContent, doCdataSection and their processors).

    Whatever the cuts, the same events are reported and the same inputs are refused, at the same
    byte.  The proof goes through `UnitRun`, which cuts data as finely as possible. */
module ContentRuns {
  import opened Bytes
  import opened MarkupMachine
  import opened ContentTokens
  import C = CharRefs

  /** A token with its text. */
  datatype Event = Event(kind: Kind, text: seq<Byte>)

  /** Reports an event; data goes on in the event before it. */
  function Report(events: seq<Event>, e: Event): seq<Event> {
    if e.kind.DataChars? && |events| > 0 && events[|events| - 1].kind.DataChars? then
      events[..|events| - 1] + [Event(DataChars, events[|events| - 1].text + e.text)]
    else
      events + [e]
  }

  /** The state in which a run over the input stops: the reason, the mode, the first unread byte. */
  datatype Halt = Halt(result: Result, cdata: bool, ptr: nat, events: seq<Event>)

  function ModeAfter(kind: Kind, cdata: bool): bool {
    if kind.CdataSectOpen? then true else if kind.CdataSectClose? then false else cdata
  }

  /** A reference to a number that is no character. */
  predicate BadReference(text: seq<Byte>) {
    C.IsCharRef(text, 0, |text|) && !C.IsXmlChar(C.NumberOf(text, 0, |text|))
  }

  /** A token that doContent refuses after the scanner has accepted it. */
  predicate Faulty(e: Event) {
    e.kind.XmlDecl? || (e.kind.CharRef? && BadReference(e.text))
  }

  /** A token behind which the run goes on. */
  predicate MayStand(text: seq<Byte>, ptr: nat, r: Result) {
    r.Token? && ptr < r.next <= |text| && !Faulty(Event(r.kind, text[ptr..r.next]))
  }

  /** No more input changes where this run has stopped. */
  predicate Final(r: Result) {
    r.Invalid? || r.Token?
  }

  function TokRun(enc: Encoding, cdata: bool, text: seq<Byte>, ptr: nat, events: seq<Event>): (h: Halt)
    requires ptr <= |text|
    ensures ptr <= h.ptr <= |text|
    decreases |text| - ptr
  {
    TokForward(enc, cdata, text, ptr);
    var r := Tok(enc, cdata, text, ptr);
    if MayStand(text, ptr, r) then
      TokRun(enc, ModeAfter(r.kind, cdata), text, r.next, Report(events, Event(r.kind, text[ptr..r.next])))
    else
      Halt(r, cdata, ptr, events)
  }

  function UnitRun(enc: Encoding, cdata: bool, text: seq<Byte>, ptr: nat, events: seq<Event>): (h: Halt)
    requires ptr <= |text|
    ensures ptr <= h.ptr <= |text|
    decreases |text| - ptr
  {
    UnitForward(enc, cdata, text, ptr);
    var r := Unit(enc, cdata, text, ptr);
    if MayStand(text, ptr, r) then
      UnitRun(enc, ModeAfter(r.kind, cdata), text, r.next, Report(events, Event(r.kind, text[ptr..r.next])))
    else
      Halt(r, cdata, ptr, events)
  }

  lemma {:induction false} TokForward(enc: Encoding, cdata: bool, text: seq<Byte>, ptr: nat)
    requires ptr <= |text|
    ensures var r := Tok(enc, cdata, text, ptr); r.Token? ==> ptr < r.next <= |text|
  {
    hide Unit;
    hide DataRun;
    UnitForward(enc, cdata, text, ptr);
  }

  // ----- tokens and units -----

  /** The events that are no character data. */
  function Markup(events: seq<Event>): seq<Event> {
    if |events| == 0 then []
    else
      var e, before := events[|events| - 1], Markup(events[..|events| - 1]);
      if e.kind.DataChars? then before else before + [e]
  }

  /** Joining data with data reports no other markup. */
  lemma {:induction false} MarkupOfReport(events: seq<Event>, e: Event)
    ensures Markup(Report(events, e)) == if e.kind.DataChars? then Markup(events) else Markup(events) + [e]
  {
    var all := Report(events, e);
    if e.kind.DataChars? && |events| > 0 && events[|events| - 1].kind.DataChars? {
      assert all[..|all| - 1] == events[..|events| - 1];
    } else {
      assert all[..|all| - 1] == events;
    }
  }

  /**
   * Two halts agree: for the same reason and behind the same markup, and in the same state unless
   * the input is refused, when one may have reported more of the data in front of the bad byte.
   */
  predicate Agrees(h: Halt, k: Halt) {
    h.result == k.result && Markup(h.events) == Markup(k.events) && (!h.result.Invalid? ==> h == k)
  }

  lemma {:induction false} ReportTwice(events: seq<Event>, a: seq<Byte>, b: seq<Byte>)
    ensures Report(Report(events, Event(DataChars, a)), Event(DataChars, b)) == Report(events, Event(DataChars, a + b))
  {
    var once := Report(events, Event(DataChars, a));
    if |events| > 0 && events[|events| - 1].kind.DataChars? {
      assert once[..|once| - 1] == events[..|events| - 1];
      assert (events[|events| - 1].text + a) + b == events[|events| - 1].text + (a + b);
    } else {
      assert once[..|once| - 1] == events;
    }
  }

  /** A run of data, read unit by unit behind the data from `start` to `ptr`. */
  lemma {:induction false} UnitsMakeRun(enc: Encoding, cdata: bool, text: seq<Byte>, start: nat, ptr: nat,
                                        events: seq<Event>)
    requires start <= ptr <= |text|
    ensures var r := DataRun(enc, cdata, text, ptr);
            var h := UnitRun(enc, cdata, text, ptr, Report(events, Event(DataChars, text[start..ptr])));
            && (r.Invalid? ==> h.result == r && Markup(h.events) == Markup(events))
            && (r.Token? ==>
                  && ptr <= r.next <= |text|
                  && h == UnitRun(enc, cdata, text, r.next, Report(events, Event(DataChars, text[start..r.next]))))
    decreases |text| - ptr
  {
    hide DataRun;
    hide ContentUnit;
    hide CdataUnit;
    hide Report;
    var r := DataRun(enc, cdata, text, ptr);
    MarkupOfReport(events, Event(DataChars, text[start..ptr]));
    if ptr == |text| {
      assert r == Token(DataChars, ptr) by { DataRunEnds(enc, cdata, text); }
    } else {
      RunByUnits(enc, cdata, text, ptr);
      var u := Unit(enc, cdata, text, ptr);
      if u.Token? && u.kind.DataChars? && r != Token(DataChars, ptr) {
        ReportTwice(events, text[start..ptr], text[ptr..u.next]);
        assert text[start..ptr] + text[ptr..u.next] == text[start..u.next];
        UnitsMakeRun(enc, cdata, text, start, u.next, events);
      }
    }
  }

  lemma {:induction false} DataRunEnds(enc: Encoding, cdata: bool, text: seq<Byte>)
    ensures DataRun(enc, cdata, text, |text|) == Token(DataChars, |text|)
  {
  }

  lemma {:induction false} RunByUnits(enc: Encoding, cdata: bool, text: seq<Byte>, ptr: nat)
    requires ptr < |text|
    ensures var u, r := Unit(enc, cdata, text, ptr), DataRun(enc, cdata, text, ptr);
            && (r == Token(DataChars, ptr) || (u.Invalid? && r == u)
                || (u.Token? && u.kind.DataChars? && ptr < u.next <= |text| && r == DataRun(enc, cdata, text, u.next)))
  {
    hide DataRun;
    hide ContentUnit;
    hide CdataUnit;
    UnitForward(enc, cdata, text, ptr);
    if cdata {
      CdataRunByUnits(enc, text, ptr);
    } else {
      ContentRunByUnits(enc, text, ptr);
    }
  }

  /** Reading token by token is reading unit by unit. */
  lemma {:induction false} TokensAreUnits(enc: Encoding, cdata: bool, text: seq<Byte>, ptr: nat, events: seq<Event>)
    requires ptr <= |text|
    ensures Agrees(TokRun(enc, cdata, text, ptr, events), UnitRun(enc, cdata, text, ptr, events))
    decreases |text| - ptr
  {
    hide DataRun;
    hide Unit;
    hide Report;
    TokForward(enc, cdata, text, ptr);
    UnitForward(enc, cdata, text, ptr);
    var u, r := Unit(enc, cdata, text, ptr), Tok(enc, cdata, text, ptr);
    if u.Token? && u.kind.DataChars? {
      UnitsMakeRun(enc, cdata, text, ptr, u.next, events);
      if r.Token? {
        TokensAreUnits(enc, cdata, text, r.next, Report(events, Event(DataChars, text[ptr..r.next])));
      }
    } else if MayStand(text, ptr, r) {
      TokensAreUnits(enc, ModeAfter(r.kind, cdata), text, r.next, Report(events, Event(r.kind, text[ptr..r.next])));
    }
  }

  // ----- more input -----

  lemma {:induction false} UnitSettled(enc: Encoding, cdata: bool, text: seq<Byte>, more: seq<Byte>, ptr: nat)
    requires ptr <= |text|
    requires !NeedsMore(Unit(enc, cdata, text, ptr))
    ensures Unit(enc, cdata, text + more, ptr) == Unit(enc, cdata, text, ptr)
  {
    hide TypeOf;
    hide CheckChar;
    hide Scan;
    CharSettled(enc, text, more, ptr);
    if !cdata && TypeOf(enc, text[ptr]).Lt? {
      ScanSettled(enc, AfterLt, text, more, ptr + 1);
    } else if !cdata && TypeOf(enc, text[ptr]).Amp? {
      ScanSettled(enc, Ref(InContent), text, more, ptr + 1);
    }
  }

  lemma {:induction false} LookaheadShifts(enc: Encoding, before: seq<Byte>, text: seq<Byte>, ptr: nat)
    requires ptr < |text|
    ensures BracketAt(before + text, |before| + ptr) == BracketAt(text, ptr)
    ensures ptr + 1 < |text| ==> NewlineAt(enc, before + text, |before| + ptr) == |before| + NewlineAt(enc, text, ptr)
    ensures OneChar(enc, before + text, |before| + ptr) == ShiftResult(OneChar(enc, text, ptr), |before|)
  {
    hide TypeOf;
    hide CheckChar;
    CharShifts(enc, before, text, ptr);
  }

  lemma {:induction false} UnitShifts(enc: Encoding, cdata: bool, before: seq<Byte>, text: seq<Byte>, ptr: nat)
    requires ptr <= |text|
    ensures Unit(enc, cdata, before + text, |before| + ptr) == ShiftResult(Unit(enc, cdata, text, ptr), |before|)
  {
    hide TypeOf;
    hide Scan;
    hide BracketAt;
    hide NewlineAt;
    hide OneChar;
    if ptr < |text| {
      assert (before + text)[|before| + ptr] == text[ptr];
      LookaheadShifts(enc, before, text, ptr);
      ScanShifts(enc, AfterLt, before, text, ptr + 1);
      ScanShifts(enc, Ref(InContent), before, text, ptr + 1);
    }
  }

  function ShiftHalt(h: Halt, k: nat): Halt {
    h.(result := ShiftResult(h.result, k), ptr := h.ptr + k)
  }

  /** A run does not depend on where its input stands. */
  lemma {:induction false} UnitRunShifts(enc: Encoding, cdata: bool, before: seq<Byte>, text: seq<Byte>, ptr: nat,
                                         events: seq<Event>)
    requires ptr <= |text|
    ensures UnitRun(enc, cdata, before + text, |before| + ptr, events) ==
            ShiftHalt(UnitRun(enc, cdata, text, ptr, events), |before|)
    decreases |text| - ptr
  {
    hide Unit;
    hide Report;
    UnitForward(enc, cdata, text, ptr);
    UnitShifts(enc, cdata, before, text, ptr);
    var u := Unit(enc, cdata, text, ptr);
    if u.Token? {
      var k := |before|;
      assert (before + text)[k + ptr..k + u.next] == text[ptr..u.next];
      if MayStand(text, ptr, u) {
        UnitRunShifts(enc, ModeAfter(u.kind, cdata), before, text, u.next,
                      Report(events, Event(u.kind, text[ptr..u.next])));
      }
    }
  }

  /** With more input a run goes on where it stopped, unless it stopped at an error. */
  lemma {:induction false} UnitRunExtends(enc: Encoding, cdata: bool, text: seq<Byte>, more: seq<Byte>, ptr: nat,
                                          events: seq<Event>)
    requires ptr <= |text|
    ensures var h := UnitRun(enc, cdata, text, ptr, events);
            UnitRun(enc, cdata, text + more, ptr, events) ==
            if Final(h.result) then h else UnitRun(enc, h.cdata, text + more, h.ptr, h.events)
    decreases |text| - ptr
  {
    hide Unit;
    hide Report;
    UnitForward(enc, cdata, text, ptr);
    var u := Unit(enc, cdata, text, ptr);
    if !NeedsMore(u) {
      UnitSettled(enc, cdata, text, more, ptr);
      if u.Token? {
        assert (text + more)[ptr..u.next] == text[ptr..u.next];
        if MayStand(text, ptr, u) {
          UnitRunExtends(enc, ModeAfter(u.kind, cdata), text, more, u.next,
                         Report(events, Event(u.kind, text[ptr..u.next])));
        }
      }
    }
  }

  // ----- sessions -----

  datatype Error =
    | InvalidToken | UnclosedToken | PartialCharacter | UnclosedCdataSection
    | BadCharRef | MisplacedXmlDecl

  /**
   * `Exhausted` is the end of the input between two tokens.  doContent then decides by the level of
   * the open elements, which module TagRuns follows; at level 0 it misses the outermost element.
   */
  datatype Verdict =
    | Going
    | Exhausted
    | Rejected(error: Error, at: nat)

  /** What is kept between pieces of input; `base` counts the bytes already consumed. */
  datatype Session = Session(verdict: Verdict, cdata: bool, leftover: seq<Byte>, base: nat, events: seq<Event>)

  function Fresh(cdata: bool): Session {
    Session(Going, cdata, [], 0, [])
  }

  function FaultOf(kind: Kind): Error {
    if kind.XmlDecl? then MisplacedXmlDecl else BadCharRef
  }

  /** The verdict when a run has stopped at `ptr`; `base` bytes lie in front of its input. */
  function VerdictOf(result: Result, cdata: bool, ptr: nat, base: nat, isFinal: bool): Verdict {
    if result.Invalid? then Rejected(InvalidToken, base + result.at)
    else if result.Token? then Rejected(FaultOf(result.kind), base + ptr)
    else if !isFinal then Going
    else if result.PartialChar? then Rejected(PartialCharacter, base + ptr)
    else if cdata then Rejected(UnclosedCdataSection, base + ptr)
    else if result.Partial? then Rejected(UnclosedToken, base + ptr)
    else Exhausted
  }

  /** How a run that can go no further leaves the session. */
  function Settle(h: Halt, buffer: seq<Byte>, base: nat, isFinal: bool): Session
    requires h.ptr <= |buffer|
  {
    var verdict := VerdictOf(h.result, h.cdata, h.ptr, base, isFinal);
    var rest := buffer[h.ptr..];
    if !verdict.Exhausted? then Session(verdict, h.cdata, rest, base + h.ptr, h.events)
    else
      var events := if h.result.TrailingCr? then Report(h.events, Event(DataNewline, rest))
                    else if h.result.TrailingRsqb? then Report(h.events, Event(DataChars, rest))
                    else h.events;
      Session(verdict, h.cdata, [], base + |buffer|, events)
  }

  /** One piece of input: what was left over and the new bytes are read together. */
  function Feed(enc: Encoding, s: Session, chunk: seq<Byte>, isFinal: bool): Session {
    if !s.verdict.Going? then s
    else
      var buffer := s.leftover + chunk;
      Settle(TokRun(enc, s.cdata, buffer, 0, s.events), buffer, s.base, isFinal)
  }

  /** Feeds the pieces in order; the last one is marked as the last. */
  function FeedAll(enc: Encoding, s: Session, chunks: seq<seq<Byte>>): Session
    requires |chunks| > 0
    decreases |chunks|
  {
    if |chunks| == 1 then Feed(enc, s, chunks[0], true) else FeedAll(enc, Feed(enc, s, chunks[0], false), chunks[1..])
  }

  function Joined(chunks: seq<seq<Byte>>): seq<Byte> {
    if |chunks| == 0 then [] else chunks[0] + Joined(chunks[1..])
  }

  /** Refused for the same reason at the same byte behind the same markup, or in the same state altogether. */
  predicate SameOutcome(s: Session, t: Session) {
    s.verdict == t.verdict && Markup(s.events) == Markup(t.events) && (!s.verdict.Rejected? ==> s == t)
  }

  /** The session has read `text`, as one run over all of it would have. */
  predicate HasRead(enc: Encoding, cdata: bool, s: Session, text: seq<Byte>) {
    SameOutcome(s, Settle(UnitRun(enc, cdata, text, 0, []), text, 0, false))
  }

  /** A run over what was left over is the end of the run over everything. */
  lemma {:induction false} LeftoverRun(enc: Encoding, cdata: bool, text: seq<Byte>, chunk: seq<Byte>)
    ensures var h := UnitRun(enc, cdata, text, 0, []);
            !Final(h.result) ==>
              UnitRun(enc, cdata, text + chunk, 0, []) ==
              ShiftHalt(UnitRun(enc, h.cdata, text[h.ptr..] + chunk, 0, h.events), h.ptr)
  {
    hide UnitRun;
    var h := UnitRun(enc, cdata, text, 0, []);
    UnitRunExtends(enc, cdata, text, chunk, 0, []);
    var before, rest := text[..h.ptr], text[h.ptr..] + chunk;
    assert text + chunk == before + rest;
    UnitRunShifts(enc, h.cdata, before, rest, 0, h.events);
  }

  lemma {:induction false} SettleShifts(h: Halt, text: seq<Byte>, k: nat, base: nat, isFinal: bool)
    requires k + h.ptr <= |text|
    ensures Settle(ShiftHalt(h, k), text, base, isFinal) == Settle(h, text[k..], base + k, isFinal)
  {
    hide Report;
    assert text[k + h.ptr..] == text[k..][h.ptr..];
  }

  lemma {:induction false} SettleAgrees(h: Halt, k: Halt, buffer: seq<Byte>, base: nat, isFinal: bool)
    requires Agrees(h, k) && h.ptr <= |buffer| && k.ptr <= |buffer|
    ensures SameOutcome(Settle(h, buffer, base, isFinal), Settle(k, buffer, base, isFinal))
  {
    hide Report;
  }

  lemma {:induction false} FinalSettles(h: Halt, text: seq<Byte>, more: seq<Byte>, isFinal: bool)
    requires Final(h.result) && h.ptr <= |text|
    ensures !Settle(h, text, 0, false).verdict.Going?
    ensures SameOutcome(Settle(h, text, 0, false), Settle(h, text + more, 0, isFinal))
  {
  }

  lemma {:induction false} PendingSettles(h: Halt, text: seq<Byte>)
    requires !Final(h.result) && h.ptr <= |text|
    ensures Settle(h, text, 0, false) == Session(Going, h.cdata, text[h.ptr..], h.ptr, h.events)
  {
  }

  /** Feeding one more piece settles like one run over everything read so far. */
  lemma {:induction false} FeedReads(enc: Encoding, cdata: bool, s: Session, text: seq<Byte>, chunk: seq<Byte>,
                                     isFinal: bool)
    requires HasRead(enc, cdata, s, text)
    ensures SameOutcome(Feed(enc, s, chunk, isFinal),
                        Settle(UnitRun(enc, cdata, text + chunk, 0, []), text + chunk, 0, isFinal))
  {
    hide UnitRun;
    hide TokRun;
    hide Report;
    hide Settle;
    var h := UnitRun(enc, cdata, text, 0, []);
    if Final(h.result) {
      UnitRunExtends(enc, cdata, text, chunk, 0, []);
      FinalSettles(h, text, chunk, isFinal);
    } else {
      PendingSettles(h, text);
      var buffer := text[h.ptr..] + chunk;
      assert (text + chunk)[h.ptr..] == buffer;
      LeftoverRun(enc, cdata, text, chunk);
      TokensAreUnits(enc, h.cdata, buffer, 0, h.events);
      var k := UnitRun(enc, h.cdata, buffer, 0, h.events);
      SettleShifts(k, text + chunk, h.ptr, 0, isFinal);
      SettleAgrees(TokRun(enc, h.cdata, buffer, 0, h.events), k, buffer, h.ptr, isFinal);
    }
  }

  lemma {:induction false} FeedAllReads(enc: Encoding, cdata: bool, s: Session, text: seq<Byte>, chunks: seq<seq<Byte>>)
    requires |chunks| > 0 && HasRead(enc, cdata, s, text)
    ensures var all := text + Joined(chunks);
            SameOutcome(FeedAll(enc, s, chunks), Settle(UnitRun(enc, cdata, all, 0, []), all, 0, true))
    decreases |chunks|
  {
    hide UnitRun;
    hide Settle;
    hide Feed;
    if |chunks| == 1 {
      assert Joined(chunks) == chunks[0];
      FeedReads(enc, cdata, s, text, chunks[0], true);
    } else {
      FeedReads(enc, cdata, s, text, chunks[0], false);
      assert text + chunks[0] + Joined(chunks[1..]) == text + Joined(chunks);
      FeedAllReads(enc, cdata, Feed(enc, s, chunks[0], false), text + chunks[0], chunks[1..]);
    }
  }

  /**
   * The cuts do not matter: feeding the pieces ends like feeding everything at once.  The same
   * input is refused, for the same reason, at the same byte and behind the same markup; otherwise
   * all the events are the same.
   */
  lemma {:induction false} CutsDoNotMatter(enc: Encoding, cdata: bool, chunks: seq<seq<Byte>>)
    requires |chunks| > 0
    ensures SameOutcome(FeedAll(enc, Fresh(cdata), chunks), Feed(enc, Fresh(cdata), Joined(chunks), true))
  {
    hide UnitRun;
    hide Feed;
    FreshHasRead(enc, cdata);
    FeedAllReads(enc, cdata, Fresh(cdata), [], chunks);
    FeedReads(enc, cdata, Fresh(cdata), [], Joined(chunks), true);
    assert [] + Joined(chunks) == Joined(chunks);
  }

  lemma {:induction false} FreshHasRead(enc: Encoding, cdata: bool)
    ensures HasRead(enc, cdata, Fresh(cdata), [])
  {
  }

  // ----- the loops -----

  /** The parts of the parser that content scanning reads and writes. */
  class ContentParser {
    const enc: Encoding
    var verdict: Verdict
    var cdata: bool
    var leftover: seq<Byte>
    var base: nat
    var events: seq<Event>

    constructor (enc: Encoding, cdata: bool)
      ensures this.enc == enc && State() == Fresh(cdata)
    {
      this.enc := enc;
      verdict, this.cdata, leftover, base, events := Going, cdata, [], 0, [];
    }

    ghost function State(): Session
      reads this
    {
      Session(verdict, cdata, leftover, base, events)
    }

    /** The loop of doCdataSection: up to the close of the section, or as far as the input goes. */
    method DoCdataSection(buffer: seq<Byte>, start: nat) returns (closed: bool, ptr: nat, result: Result)
      requires start <= |buffer| && cdata
      modifies this`cdata, this`events
      ensures start <= ptr <= |buffer|
      ensures closed ==> !cdata && start < ptr &&
                         TokRun(enc, true, buffer, start, old(events)) == TokRun(enc, false, buffer, ptr, events)
      ensures !closed ==> TokRun(enc, true, buffer, start, old(events)) == Halt(result, cdata, ptr, events)
    {
      hide Tok;
      hide Report;
      ptr := start;
      while true
        invariant start <= ptr <= |buffer| && cdata
        invariant TokRun(enc, true, buffer, start, old(events)) == TokRun(enc, true, buffer, ptr, events)
        decreases |buffer| - ptr
      {
        TokForward(enc, true, buffer, ptr);
        CdataTokens(enc, buffer, ptr);
        result := CdataSectionTok(enc, buffer, ptr);
        if !result.Token? {
          return false, ptr, result;
        }
        events := Report(events, Event(result.kind, buffer[ptr..result.next]));
        ptr := result.next;
        if result.kind.CdataSectClose? {
          cdata := false;
          return true, ptr, result;
        }
      }
    }

    /** The loop of doContent. */
    method DoContent(buffer: seq<Byte>, start: nat) returns (ptr: nat, result: Result)
      requires start <= |buffer| && !cdata
      modifies this`cdata, this`events
      ensures TokRun(enc, false, buffer, start, old(events)) == Halt(result, cdata, ptr, events)
    {
      hide Tok;
      hide Report;
      ptr := start;
      while true
        invariant start <= ptr <= |buffer| && !cdata
        invariant TokRun(enc, false, buffer, start, old(events)) == TokRun(enc, false, buffer, ptr, events)
        decreases |buffer| - ptr
      {
        TokForward(enc, false, buffer, ptr);
        result := ContentTok(enc, buffer, ptr);
        var goesOn := Check(enc, buffer, ptr, result);
        if !goesOn {
          return;
        }
        events := Report(events, Event(result.kind, buffer[ptr..result.next]));
        ptr := result.next;
        if result.kind.CdataSectOpen? {
          cdata := true;
          var closed;
          closed, ptr, result := DoCdataSection(buffer, ptr);
          if !closed {
            return;
          }
        }
      }
    }

    /** One call with input: the processors, and what is kept for the next call. */
    method Parse(chunk: seq<Byte>, isFinal: bool)
      modifies this
      ensures State() == Feed(enc, old(State()), chunk, isFinal)
    {
      hide Settle;
      hide TokRun;
      hide Report;
      if !verdict.Going? {
        return;
      }
      var buffer := leftover + chunk;
      var closed, ptr, result := true, 0, NoToken;
      if cdata {
        closed, ptr, result := DoCdataSection(buffer, 0);
      }
      if closed {
        ptr, result := DoContent(buffer, ptr);
      }
      Conclude(buffer, ptr, result, isFinal);
    }

    /** Keeps what was not read, and decides at the end of the input. */
    method Conclude(buffer: seq<Byte>, ptr: nat, result: Result, isFinal: bool)
      requires ptr <= |buffer| && verdict.Going?
      modifies this
      ensures State() == Settle(Halt(result, old(cdata), ptr, old(events)), buffer, old(base), isFinal)
    {
      hide Report;
      verdict := VerdictOf(result, cdata, ptr, base, isFinal);
      leftover := buffer[ptr..];
      base := base + ptr;
      if verdict.Exhausted? {
        if result.TrailingCr? {
          events := Report(events, Event(DataNewline, leftover));
        } else if result.TrailingRsqb? {
          events := Report(events, Event(DataChars, leftover));
        }
        base := base + |leftover|;
        leftover := [];
      }
    }
  }

  /** What doContent still looks at in a token: whether it may stand here. */
  method Check(enc: Encoding, text: seq<Byte>, ptr: nat, r: Result) returns (goesOn: bool)
    requires ptr <= |text| && r == Tok(enc, false, text, ptr)
    ensures goesOn == MayStand(text, ptr, r)
  {
    hide Tok;
    hide BadReference;
    TokForward(enc, false, text, ptr);
    if r.Token? && r.kind.CharRef? {
      ReferenceIsScanned(enc, text, ptr);
      SameNumber(text, ptr, r.next);
      var number := C.CharRefNumber(text, ptr, r.next);
      return number >= 0;
    }
    return r.Token? && !r.kind.XmlDecl?;
  }

  lemma {:induction false} ReferenceIsScanned(enc: Encoding, text: seq<Byte>, ptr: nat)
    requires ptr <= |text| && Tok(enc, false, text, ptr).Token? && Tok(enc, false, text, ptr).kind.CharRef?
    ensures C.IsCharRef(text, ptr, Tok(enc, false, text, ptr).next)
  {
    hide Scan;
    hide TypeOf;
    hide DataRun;
    hide C.IsCharRef;
    UnitForward(enc, false, text, ptr);
    if ptr < |text| && TypeOf(enc, text[ptr]).Lt? {
      ScanIsNoReference(enc, AfterLt, text, ptr + 1);
    }
    C.ScannedIsCharRef(enc, text, ptr, Tok(enc, false, text, ptr).next);
  }

  /** A reference stands for the same number wherever it stands. */
  lemma {:induction false} SameNumber(text: seq<Byte>, ptr: nat, next: nat)
    requires C.IsCharRef(text, ptr, next)
    ensures BadReference(text[ptr..next]) <==> !C.IsXmlChar(C.NumberOf(text, ptr, next))
  {
    var own := text[ptr..next];
    assert forall i | 0 <= i < |own| :: own[i] == text[ptr + i];
    assert C.Start(own, 0) + ptr == C.Start(text, ptr);
    assert own[C.Start(own, 0)..|own| - 1] == text[C.Start(text, ptr)..next - 1];
  }

  lemma {:induction false} CdataTokens(enc: Encoding, text: seq<Byte>, ptr: nat)
    requires ptr <= |text|
    ensures var r := Tok(enc, true, text, ptr);
            r.Token? ==> !r.kind.CdataSectOpen? && !r.kind.CharRef? && !r.kind.XmlDecl?
  {
    hide TypeOf;
    hide CheckChar;
    UnitForward(enc, true, text, ptr);
    if ptr < |text| {
      CharSettled(enc, text, [], ptr);
    }
  }
}
