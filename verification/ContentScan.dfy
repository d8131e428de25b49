/** Content and CDATA sections, token by token (contentTok and cdataSectionTok).

    A run of character data may be cut wherever the input ends.  `Unit` is the finest cut: it
    returns data one character at a time, and everything the tokenisers return is made of units. */
module ContentTokens {
  import opened Bytes
  import opened MarkupMachine
  import opened Scanners

  const RSQB: Byte := 0x5d
  const GT: Byte := 0x3e

  /** What follows a ']': whether more input is needed, "]]>" is complete, or it is plain. */
  datatype Bracket = Plain | Closing | Undecided

  function BracketAt(text: seq<Byte>, ptr: nat): Bracket
    requires ptr < |text|
  {
    if ptr + 1 == |text| then Undecided
    else if text[ptr + 1] != RSQB then Plain
    else if ptr + 2 == |text| then Undecided
    else if text[ptr + 2] != GT then Plain
    else Closing
  }

  function NewlineAt(enc: Encoding, text: seq<Byte>, ptr: nat): nat
    requires ptr + 1 < |text|
  {
    if TypeOf(enc, text[ptr + 1]).Lf? then ptr + 2 else ptr + 1
  }

  /** The first character of a token of the content; `p` is where its data goes on. */
  function ContentUnit(enc: Encoding, text: seq<Byte>, ptr: nat): Result
    requires ptr < |text|
  {
    var t := TypeOf(enc, text[ptr]);
    if t.Lt? then Scan(enc, AfterLt, text, ptr + 1)
    else if t.Amp? then Scan(enc, Ref(InContent), text, ptr + 1)
    else if t.Cr? then
      if ptr + 1 == |text| then TrailingCr else Token(DataNewline, NewlineAt(enc, text, ptr))
    else if t.Lf? then Token(DataNewline, ptr + 1)
    else if t.Rsqb? then
      var b := BracketAt(text, ptr);
      if b.Undecided? then TrailingRsqb else if b.Closing? then Invalid(ptr + 2) else Token(DataChars, ptr + 1)
    else OneChar(enc, text, ptr)
  }

  /** The first character of a token of a CDATA section. */
  function CdataUnit(enc: Encoding, text: seq<Byte>, ptr: nat): Result
    requires ptr < |text|
  {
    var t := TypeOf(enc, text[ptr]);
    if t.Rsqb? then
      var b := BracketAt(text, ptr);
      if b.Undecided? then Partial else if b.Closing? then Token(CdataSectClose, ptr + 3) else Token(DataChars, ptr + 1)
    else if t.Cr? then
      if ptr + 1 == |text| then Partial else Token(DataNewline, NewlineAt(enc, text, ptr))
    else if t.Lf? then Token(DataNewline, ptr + 1)
    else OneChar(enc, text, ptr)
  }

  function OneChar(enc: Encoding, text: seq<Byte>, ptr: nat): Result
    requires ptr < |text|
  {
    var a := CheckChar(enc, text, ptr);
    if a.Go? then Token(DataChars, a.next) else if a.Stop? then a.result else Token(DataChars, ptr + 1)
  }

  function Unit(enc: Encoding, cdata: bool, text: seq<Byte>, ptr: nat): Result
    requires ptr <= |text|
  {
    if ptr == |text| then NoToken
    else if cdata then CdataUnit(enc, text, ptr)
    else ContentUnit(enc, text, ptr)
  }

  lemma {:induction false} UnitForward(enc: Encoding, cdata: bool, text: seq<Byte>, ptr: nat)
    requires ptr <= |text|
    ensures var r := Unit(enc, cdata, text, ptr);
            && (r.Token? ==> ptr < r.next <= |text|)
            && (r.Invalid? ==> ptr <= r.at < |text|)
  {
    hide TypeOf;
    hide CheckChar;
    hide Scan;
    if ptr < |text| {
      CharSettled(enc, text, [], ptr);
    }
  }

  // ----- a run of character data -----

  /** The loop that looks for the end of a run of data: the end of the run, or an error inside it. */
  function DataRun(enc: Encoding, cdata: bool, text: seq<Byte>, ptr: nat): (r: Result)
    requires ptr <= |text|
    ensures r.Token? || r.Invalid?
    ensures r.Token? ==> r.kind.DataChars? && ptr <= r.next <= |text|
    ensures r.Invalid? ==> ptr <= r.at < |text|
    decreases |text| - ptr
  {
    if ptr == |text| then Token(DataChars, ptr)
    else
      var t := TypeOf(enc, text[ptr]);
      if IsLead(t) then
        if |text| - ptr < Width(t) || InvalidChar(text[ptr..ptr + Width(t)]) then Token(DataChars, ptr)
        else DataRun(enc, cdata, text, ptr + Width(t))
      else if t.Rsqb? && !cdata then
        var b := BracketAt(text, ptr);
        if b.Plain? then DataRun(enc, cdata, text, ptr + 1)
        else if b.Closing? then Invalid(ptr + 2)
        else Token(DataChars, ptr)
      else if EndsData(t, cdata) then Token(DataChars, ptr)
      else DataRun(enc, cdata, text, ptr + 1)
  }

  predicate EndsData(t: ByteType, cdata: bool) {
    || t.NonXml? || t.Malform? || t.Trail? || t.Cr? || t.Lf?
    || (if cdata then t.Rsqb? else t.Amp? || t.Lt?)
  }

  /** What the tokenisers return: a unit, extended to the end of its run when it is data. */
  function Tok(enc: Encoding, cdata: bool, text: seq<Byte>, ptr: nat): Result
    requires ptr <= |text|
  {
    UnitForward(enc, cdata, text, ptr);
    var r := Unit(enc, cdata, text, ptr);
    if r.Token? && r.kind.DataChars? then DataRun(enc, cdata, text, r.next) else r
  }

  // ----- markup is never data -----

  predicate IsMarkup(k: Kind) {
    !k.DataChars? && !k.DataNewline? && !k.CdataSectClose? && !k.AttributeValueS?
  }

  lemma {:induction false} StepIsNoData(enc: Encoding, state: State, text: seq<Byte>, ptr: nat)
    requires ptr <= |text| && Placed(state, ptr)
    ensures var m := Step(enc, state, text, ptr); m.Done? && m.result.Token? ==> IsMarkup(m.result.kind)
  {
    hide CheckName;
    hide CheckNmstrt;
    hide CheckChar;
    hide TargetOf;
    hide Mismatch;
    hide TypeOf;
    hide InvalidChar;
    if ptr < |text| {
      CharSettled(enc, text, [], ptr);
    }
  }

  lemma {:induction false} ScanIsNoData(enc: Encoding, state: State, text: seq<Byte>, ptr: nat)
    requires ptr <= |text| && Placed(state, ptr)
    ensures var r := Scan(enc, state, text, ptr); r.Token? ==> IsMarkup(r.kind)
    decreases |text| - ptr
  {
    hide Step;
    StepIsNoData(enc, state, text, ptr);
    ScanStep(enc, state, text, ptr);
    var m := Step(enc, state, text, ptr);
    if m.To? {
      ScanIsNoData(enc, m.state, text, m.ptr);
    }
  }

  /** In a reference that stands in content. */
  predicate InReference(s: State) {
    (s.Ref? || s.RefName? || s.NumRef? || s.Digits? || s.HexRef? || s.HexDigits?) && s.container.InContent?
  }

  predicate NoReference(m: Move) {
    if m.To? then !InReference(m.state) else m.result.Token? ==> !m.result.kind.CharRef?
  }

  lemma {:induction false} ValueStepIsNoReference(enc: Encoding, state: State, text: seq<Byte>, ptr: nat)
    requires ptr < |text|
    requires state.Ref? || state.RefName? || state.NumRef? || state.Digits? || state.HexRef? || state.HexDigits?
    requires !InReference(state)
    ensures NoReference(StepRef(enc, state, text, ptr))
  {
    hide CheckName;
    hide CheckNmstrt;
    hide TypeOf;
    CharSettled(enc, text, [], ptr);
  }

  lemma {:induction false} TagStepIsNoReference(enc: Encoding, state: State, text: seq<Byte>, ptr: nat)
    requires ptr < |text|
    ensures state.StartName? || state.StartColon? || state.StartGap? || state.Slash? ==>
              NoReference(StepStart(enc, state, text, ptr))
    ensures state.AttName? || state.AttColon? ==> NoReference(StepAttName(enc, state, text, ptr))
    ensures state.AttBeforeEquals? || state.AttAfterEquals? || state.AttValue? || state.AttClose? || state.AttGap? ==>
              NoReference(StepAttRest(enc, state, text, ptr))
  {
    hide CheckName;
    hide CheckNmstrt;
    hide CheckChar;
    hide TypeOf;
    CharSettled(enc, text, [], ptr);
  }

  lemma {:induction false} StepIsNoReference(enc: Encoding, state: State, text: seq<Byte>, ptr: nat)
    requires ptr <= |text| && Placed(state, ptr) && !InReference(state)
    ensures NoReference(Step(enc, state, text, ptr))
  {
    hide CheckName;
    hide CheckNmstrt;
    hide CheckChar;
    hide TargetOf;
    hide Mismatch;
    hide TypeOf;
    hide StepStart;
    hide StepAttName;
    hide StepAttRest;
    hide StepRef;
    if ptr < |text| {
      CharSettled(enc, text, [], ptr);
      TagStepIsNoReference(enc, state, text, ptr);
      if state.Ref? || state.RefName? || state.NumRef? || state.Digits? || state.HexRef? || state.HexDigits? {
        ValueStepIsNoReference(enc, state, text, ptr);
      }
    }
  }

  /** Markup behind '<' is no character reference, although references stand in its attribute values. */
  lemma {:induction false} ScanIsNoReference(enc: Encoding, state: State, text: seq<Byte>, ptr: nat)
    requires ptr <= |text| && Placed(state, ptr) && !InReference(state)
    ensures var r := Scan(enc, state, text, ptr); r.Token? ==> !r.kind.CharRef?
    decreases |text| - ptr
  {
    hide Step;
    StepIsNoReference(enc, state, text, ptr);
    ScanStep(enc, state, text, ptr);
    var m := Step(enc, state, text, ptr);
    if m.To? {
      ScanIsNoReference(enc, m.state, text, m.ptr);
    }
  }

  /** A run of data goes on exactly as long as the units do. */
  predicate GoesOn(u: Result, r: Result, ptr: nat) {
    if u.Token? && u.kind.DataChars? then ptr < u.next else r == Token(DataChars, ptr) || (u.Invalid? && r == u)
  }

  lemma {:induction false} CharRunByUnits(enc: Encoding, text: seq<Byte>, ptr: nat)
    requires ptr < |text|
    requires !TypeOf(enc, text[ptr]).Lt? && !TypeOf(enc, text[ptr]).Amp? && !TypeOf(enc, text[ptr]).Rsqb?
    requires !TypeOf(enc, text[ptr]).Cr? && !TypeOf(enc, text[ptr]).Lf?
    ensures var u, r := OneChar(enc, text, ptr), DataRun(enc, false, text, ptr);
            && GoesOn(u, r, ptr)
            && (u.Token? && u.kind.DataChars? ==> u.next <= |text| && r == DataRun(enc, false, text, u.next))
  {
    hide TypeOf;
    hide InvalidChar;
    hide BracketAt;
    CharSettled(enc, text, [], ptr);
  }

  lemma {:induction false} ContentRunByUnits(enc: Encoding, text: seq<Byte>, ptr: nat)
    requires ptr < |text|
    ensures var u, r := ContentUnit(enc, text, ptr), DataRun(enc, false, text, ptr);
            && GoesOn(u, r, ptr)
            && (u.Token? && u.kind.DataChars? ==> u.next <= |text| && r == DataRun(enc, false, text, u.next))
  {
    hide TypeOf;
    hide InvalidChar;
    hide Scan;
    hide BracketAt;
    hide OneChar;
    var t := TypeOf(enc, text[ptr]);
    if t.Lt? {
      ScanIsNoData(enc, AfterLt, text, ptr + 1);
    } else if t.Amp? {
      ScanIsNoData(enc, Ref(InContent), text, ptr + 1);
    } else if !t.Cr? && !t.Lf? && !t.Rsqb? {
      CharRunByUnits(enc, text, ptr);
    }
  }

  lemma {:induction false} CdataRunByUnits(enc: Encoding, text: seq<Byte>, ptr: nat)
    requires ptr < |text|
    ensures var u, r := CdataUnit(enc, text, ptr), DataRun(enc, true, text, ptr);
            && (GoesOn(u, r, ptr) || r == Token(DataChars, ptr))
            && (u.Token? && u.kind.DataChars? ==>
                  u.next <= |text| && (r == DataRun(enc, true, text, u.next) || r == Token(DataChars, ptr)))
  {
    hide TypeOf;
    hide InvalidChar;
    hide BracketAt;
    CharSettled(enc, text, [], ptr);
  }

  method ContentTok(enc: Encoding, text: seq<Byte>, start: nat) returns (r: Result)
    requires start <= |text|
    ensures r == Tok(enc, false, text, start)
  {
    hide TypeOf;
    hide Scan;
    hide DataRun;
    hide InvalidChar;
    UnitForward(enc, false, text, start);
    var ptr := start;
    if ptr == |text| {
      return NoToken;
    }
    var t := TypeOf(enc, text[ptr]);
    var a := CheckChar(enc, text, ptr);
    if t.Lt? {
      r := ScanLt(enc, text, ptr + 1);
      ScanIsNoData(enc, AfterLt, text, ptr + 1);
      return;
    } else if t.Amp? {
      var m := ScanRef(enc, text, ptr + 1, InContent);
      r := m.result;
      ScanIsNoData(enc, Ref(InContent), text, ptr + 1);
      return;
    } else if t.Cr? {
      ptr := ptr + 1;
      if ptr == |text| {
        return TrailingCr;
      }
      if TypeOf(enc, text[ptr]).Lf? {
        ptr := ptr + 1;
      }
      return Token(DataNewline, ptr);
    } else if t.Lf? {
      return Token(DataNewline, ptr + 1);
    } else if t.Rsqb? {
      ptr := ptr + 1;
      if ptr == |text| {
        return TrailingRsqb;
      }
      if text[ptr] == RSQB {
        ptr := ptr + 1;
        if ptr == |text| {
          return TrailingRsqb;
        }
        if text[ptr] == GT {
          return Invalid(ptr);
        }
        ptr := ptr - 1;
      }
    } else if a.Stop? {
      return a.result;
    } else if a.Go? {
      ptr := a.next;
    } else {
      ptr := ptr + 1;
    }
    r := ContentData(enc, text, ptr);
  }

  /** The loop of contentTok. */
  method ContentData(enc: Encoding, text: seq<Byte>, start: nat) returns (r: Result)
    requires start <= |text|
    ensures r == DataRun(enc, false, text, start)
  {
    hide TypeOf;
    hide InvalidChar;
    var ptr := start;
    while ptr != |text|
      invariant start <= ptr <= |text|
      invariant DataRun(enc, false, text, start) == DataRun(enc, false, text, ptr)
      decreases |text| - ptr
    {
      var t := TypeOf(enc, text[ptr]);
      if IsLead(t) {
        if |text| - ptr < Width(t) || InvalidChar(text[ptr..ptr + Width(t)]) {
          return Token(DataChars, ptr);
        }
        ptr := ptr + Width(t);
      } else if t.Rsqb? {
        if ptr + 1 != |text| {
          if text[ptr + 1] != RSQB {
            ptr := ptr + 1;
            continue;
          }
          if ptr + 2 != |text| {
            if text[ptr + 2] != GT {
              ptr := ptr + 1;
              continue;
            }
            return Invalid(ptr + 2);
          }
        }
        return Token(DataChars, ptr);
      } else if EndsData(t, false) {
        return Token(DataChars, ptr);
      } else {
        ptr := ptr + 1;
      }
    }
    return Token(DataChars, ptr);
  }

  method CdataSectionTok(enc: Encoding, text: seq<Byte>, start: nat) returns (r: Result)
    requires start <= |text|
    ensures r == Tok(enc, true, text, start)
  {
    hide TypeOf;
    hide DataRun;
    hide InvalidChar;
    UnitForward(enc, true, text, start);
    var ptr := start;
    if ptr == |text| {
      return NoToken;
    }
    var t := TypeOf(enc, text[ptr]);
    var a := CheckChar(enc, text, ptr);
    if t.Rsqb? {
      ptr := ptr + 1;
      if ptr == |text| {
        return Partial;
      }
      if text[ptr] == RSQB {
        ptr := ptr + 1;
        if ptr == |text| {
          return Partial;
        }
        if text[ptr] == GT {
          return Token(CdataSectClose, ptr + 1);
        }
        ptr := ptr - 1;
      }
    } else if t.Cr? {
      ptr := ptr + 1;
      if ptr == |text| {
        return Partial;
      }
      if TypeOf(enc, text[ptr]).Lf? {
        ptr := ptr + 1;
      }
      return Token(DataNewline, ptr);
    } else if t.Lf? {
      return Token(DataNewline, ptr + 1);
    } else if a.Stop? {
      return a.result;
    } else if a.Go? {
      ptr := a.next;
    } else {
      ptr := ptr + 1;
    }
    r := CdataData(enc, text, ptr);
  }

  /** The loop of cdataSectionTok. */
  method CdataData(enc: Encoding, text: seq<Byte>, start: nat) returns (r: Result)
    requires start <= |text|
    ensures r == DataRun(enc, true, text, start)
  {
    hide TypeOf;
    hide InvalidChar;
    var ptr := start;
    while ptr != |text|
      invariant start <= ptr <= |text|
      invariant DataRun(enc, true, text, start) == DataRun(enc, true, text, ptr)
      decreases |text| - ptr
    {
      var t := TypeOf(enc, text[ptr]);
      if IsLead(t) {
        if |text| - ptr < Width(t) || InvalidChar(text[ptr..ptr + Width(t)]) {
          return Token(DataChars, ptr);
        }
        ptr := ptr + Width(t);
      } else if EndsData(t, true) {
        return Token(DataChars, ptr);
      } else {
        ptr := ptr + 1;
      }
    }
    return Token(DataChars, ptr);
  }
}
