/** Tokens inside markup (xmltok_impl.c): comments, processing instructions, tags and references.

    `Scan` is one state machine for all scanners that begin after '<' or '&'.  Each state stands
    for a place in one of the scanners; the scanners themselves are the loops of module Scanners. */
module MarkupMachine {
  import opened Bytes

  datatype Kind =
    | StartTagWithAtts | StartTagNoAtts | EmptyElementWithAtts | EmptyElementNoAtts | EndTag
    | DataChars | DataNewline | CdataSectOpen | CdataSectClose
    | EntityRef | CharRef | PI | XmlDecl | Comment | AttributeValueS

  /** What a scanner returns: a token and its end, the place of an error, or why it needs more. */
  datatype Result =
    | Token(kind: Kind, next: nat)
    | Invalid(at: nat)
    | Partial
    | PartialChar
    | TrailingCr
    | TrailingRsqb
    | NoToken

  /** Whether more input can change the result. */
  predicate NeedsMore(r: Result) {
    !r.Token? && !r.Invalid?
  }

  // ----- one character -----

  /** The effect of a group of switch cases on one character. */
  datatype Advance =
    | Go(next: nat)
    | Stop(result: Result)
    | NoMatch

  /** A multi-byte character that must be complete and pass a test. */
  function MultiByte(text: seq<Byte>, ptr: nat, n: nat, test: seq<Byte> -> bool): Advance
    requires ptr < |text|
  {
    if |text| - ptr < n then Stop(PartialChar)
    else if !test(text[ptr..ptr + n]) then Stop(Invalid(ptr))
    else Go(ptr + n)
  }

  function NameTest(enc: Encoding): seq<Byte> -> bool {
    p => InName(enc, p)
  }

  function NmstrtTest(enc: Encoding): seq<Byte> -> bool {
    p => StartsName(enc, p)
  }

  function CharTest(): seq<Byte> -> bool {
    p => 2 <= |p| <= 4 && !InvalidChar(p)
  }

  /** CHECK_NAME_CASES */
  function CheckName(enc: Encoding, text: seq<Byte>, ptr: nat): Advance
    requires ptr < |text|
  {
    var t := TypeOf(enc, text[ptr]);
    if t.NmStrt? || t.Hex? || t.Digit? || t.Name? || t.Minus? then Go(ptr + 1)
    else if IsLead(t) then MultiByte(text, ptr, Width(t), NameTest(enc))
    else NoMatch
  }

  /** CHECK_NMSTRT_CASES */
  function CheckNmstrt(enc: Encoding, text: seq<Byte>, ptr: nat): Advance
    requires ptr < |text|
  {
    var t := TypeOf(enc, text[ptr]);
    if t.NmStrt? || t.Hex? then Go(ptr + 1)
    else if IsLead(t) then MultiByte(text, ptr, Width(t), NmstrtTest(enc))
    else NoMatch
  }

  /** INVALID_CASES */
  function CheckChar(enc: Encoding, text: seq<Byte>, ptr: nat): Advance
    requires ptr < |text|
  {
    var t := TypeOf(enc, text[ptr]);
    if IsLead(t) then MultiByte(text, ptr, Width(t), CharTest())
    else if t.NonXml? || t.Malform? || t.Trail? then Stop(Invalid(ptr))
    else NoMatch
  }

  // ----- the machine -----

  /** Where a reference stands: in content, or in an attribute value with this quote. */
  datatype Container = InContent | InValue(quot: bool)

  datatype State =
    | AfterLt | AfterExcl | CdataOpen
    | CommentOpen | CommentBody | CommentDash | CommentEnd
    | PiStart | PiName(target: nat) | PiNameQuest(xml: bool) | PiBody(xml: bool) | PiBodyQuest(xml: bool)
    | EndStart | EndName | EndGap
    | StartName(colon: bool) | StartColon | StartGap | Slash(atts: bool)
    | AttName(colon: bool) | AttColon | AttBeforeEquals | AttAfterEquals
    | AttValue(quot: bool) | AttClose | AttGap
    | Ref(container: Container) | RefName(container: Container)
    | NumRef(container: Container) | Digits(container: Container)
    | HexRef(container: Container) | HexDigits(container: Container)

  datatype Move =
    | To(state: State, ptr: nat)
    | Done(result: Result)

  /** Continues in `state` when the character matched, and as `otherwise` when it did not. */
  function After(a: Advance, state: State, otherwise: Move): Move {
    if a.Go? then To(state, a.next) else if a.Stop? then Done(a.result) else otherwise
  }

  function Refuse(ptr: nat): Move {
    Done(Invalid(ptr))
  }

  function Accept(kind: Kind, next: nat): Move {
    Done(Token(kind, next))
  }

  const CDATA_LSQB: seq<Byte> := [0x43, 0x44, 0x41, 0x54, 0x41, 0x5b]

  function StepLt(enc: Encoding, text: seq<Byte>, ptr: nat): Move
    requires ptr < |text|
  {
    var t := TypeOf(enc, text[ptr]);
    After(CheckNmstrt(enc, text, ptr), StartName(false),
          if t.Excl? then To(AfterExcl, ptr + 1)
          else if t.Quest? then To(PiStart, ptr + 1)
          else if t.Sol? then To(EndStart, ptr + 1)
          else Refuse(ptr))
  }

  function StepExcl(enc: Encoding, text: seq<Byte>, ptr: nat): Move
    requires ptr < |text|
  {
    var t := TypeOf(enc, text[ptr]);
    if t.Minus? then To(CommentOpen, ptr + 1)
    else if t.Lsqb? then To(CdataOpen, ptr + 1)
    else Refuse(ptr)
  }

  /** The first of the six bytes that differs from "CDATA[", if one does. */
  function Mismatch(text: seq<Byte>, ptr: nat, i: nat): (k: nat)
    requires i <= 6 && ptr + 6 <= |text|
    ensures i <= k <= 6
    decreases 6 - i
  {
    if i < 6 && text[ptr + i] == CDATA_LSQB[i] then Mismatch(text, ptr, i + 1) else i
  }

  function StepCdata(text: seq<Byte>, ptr: nat): Move {
    if |text| < ptr + 6 then Done(Partial)
    else
      var k := Mismatch(text, ptr, 0);
      if k < 6 then Refuse(ptr + k) else Accept(CdataSectOpen, ptr + 6)
  }

  function StepComment(enc: Encoding, state: State, text: seq<Byte>, ptr: nat): Move
    requires ptr < |text|
  {
    var t := TypeOf(enc, text[ptr]);
    if state.CommentOpen? then
      if text[ptr] == 0x2d then To(CommentBody, ptr + 1) else Refuse(ptr)
    else if state.CommentEnd? then
      if text[ptr] == 0x3e then Accept(Comment, ptr + 1) else Refuse(ptr)
    else if state.CommentDash? && text[ptr] == 0x2d then
      To(CommentEnd, ptr + 1)
    else
      After(CheckChar(enc, text, ptr), CommentBody, To(if t.Minus? then CommentDash else CommentBody, ptr + 1))
  }

  /** checkPiTarget: whether a target is "xml", or a forbidden variant of it. */
  datatype PiTarget = Ordinary | XmlTarget | Forbidden

  function TargetOf(target: seq<Byte>): PiTarget {
    if |target| != 3 then Ordinary
    else if target[0] !in {0x78, 0x58} || target[1] !in {0x6d, 0x4d} || target[2] !in {0x6c, 0x4c} then Ordinary
    else if target == [0x78, 0x6d, 0x6c] then XmlTarget
    else Forbidden
  }

  function PiKind(xml: bool): Kind {
    if xml then XmlDecl else PI
  }

  function StepPiName(enc: Encoding, target: nat, text: seq<Byte>, ptr: nat): Move
    requires target <= ptr < |text|
  {
    var t := TypeOf(enc, text[ptr]);
    var kind := TargetOf(text[target..ptr]);
    After(CheckName(enc, text, ptr), PiName(target),
          if !IsSpace(t) && !t.Quest? then Refuse(ptr)
          else if kind.Forbidden? then Refuse(ptr)
          else if IsSpace(t) then To(PiBody(kind.XmlTarget?), ptr + 1)
          else To(PiNameQuest(kind.XmlTarget?), ptr + 1))
  }

  function StepPiBody(enc: Encoding, state: State, text: seq<Byte>, ptr: nat): Move
    requires ptr < |text|
    requires state.PiNameQuest? || state.PiBody? || state.PiBodyQuest?
  {
    var t := TypeOf(enc, text[ptr]);
    if !state.PiBody? && text[ptr] == 0x3e then
      Accept(PiKind(state.xml), ptr + 1)
    else if state.PiNameQuest? then
      Refuse(ptr)
    else
      After(CheckChar(enc, text, ptr), PiBody(state.xml),
            To(if t.Quest? then PiBodyQuest(state.xml) else PiBody(state.xml), ptr + 1))
  }

  function StepEnd(enc: Encoding, state: State, text: seq<Byte>, ptr: nat): Move
    requires ptr < |text|
  {
    var t := TypeOf(enc, text[ptr]);
    if state.EndStart? then
      After(CheckNmstrt(enc, text, ptr), EndName, Refuse(ptr))
    else if state.EndName? then
      After(CheckName(enc, text, ptr), EndName,
            if IsSpace(t) then To(EndGap, ptr + 1)
            else if t.Colon? then To(EndName, ptr + 1)
            else if t.Gt? then Accept(EndTag, ptr + 1)
            else Refuse(ptr))
    else if IsSpace(t) then
      To(EndGap, ptr + 1)
    else if t.Gt? then
      Accept(EndTag, ptr + 1)
    else
      Refuse(ptr)
  }

  function StepStart(enc: Encoding, state: State, text: seq<Byte>, ptr: nat): Move
    requires ptr < |text|
    requires state.StartName? || state.StartColon? || state.StartGap? || state.Slash?
  {
    var t := TypeOf(enc, text[ptr]);
    if state.StartName? then
      After(CheckName(enc, text, ptr), state,
            if t.Colon? && !state.colon then To(StartColon, ptr + 1)
            else if IsSpace(t) then To(StartGap, ptr + 1)
            else if t.Gt? then Accept(StartTagNoAtts, ptr + 1)
            else if t.Sol? then To(Slash(false), ptr + 1)
            else Refuse(ptr))
    else if state.StartColon? then
      After(CheckNmstrt(enc, text, ptr), StartName(true), Refuse(ptr))
    else if state.StartGap? then
      After(CheckNmstrt(enc, text, ptr), AttName(false),
            if IsSpace(t) then To(StartGap, ptr + 1)
            else if t.Gt? then Accept(StartTagNoAtts, ptr + 1)
            else if t.Sol? then To(Slash(false), ptr + 1)
            else Refuse(ptr))
    else if text[ptr] == 0x3e then
      Accept(if state.atts then EmptyElementWithAtts else EmptyElementNoAtts, ptr + 1)
    else
      Refuse(ptr)
  }

  function StepAttName(enc: Encoding, state: State, text: seq<Byte>, ptr: nat): Move
    requires ptr < |text|
    requires state.AttName? || state.AttColon?
  {
    var t := TypeOf(enc, text[ptr]);
    if state.AttName? then
      After(CheckName(enc, text, ptr), state,
            if t.Colon? && !state.colon then To(AttColon, ptr + 1)
            else if IsSpace(t) then To(AttBeforeEquals, ptr + 1)
            else if t.Equals? then To(AttAfterEquals, ptr + 1)
            else Refuse(ptr))
    else
      After(CheckNmstrt(enc, text, ptr), AttName(true), Refuse(ptr))
  }

  predicate IsOpen(t: ByteType, quot: bool) {
    if quot then t.Quot? else t.Apos?
  }

  function StepAttRest(enc: Encoding, state: State, text: seq<Byte>, ptr: nat): Move
    requires ptr < |text|
    requires state.AttBeforeEquals? || state.AttAfterEquals? || state.AttValue? || state.AttClose? || state.AttGap?
  {
    var t := TypeOf(enc, text[ptr]);
    if state.AttBeforeEquals? then
      if t.Equals? then To(AttAfterEquals, ptr + 1)
      else if IsSpace(t) then To(AttBeforeEquals, ptr + 1)
      else Refuse(ptr)
    else if state.AttAfterEquals? then
      if t.Quot? || t.Apos? then To(AttValue(t.Quot?), ptr + 1)
      else if IsSpace(t) then To(AttAfterEquals, ptr + 1)
      else Refuse(ptr)
    else if state.AttValue? then
      if IsOpen(t, state.quot) then To(AttClose, ptr + 1)
      else After(CheckChar(enc, text, ptr), state,
                 if t.Amp? then To(Ref(InValue(state.quot)), ptr + 1)
                 else if t.Lt? then Refuse(ptr)
                 else To(state, ptr + 1))
    else if IsSpace(t) then
      To(AttGap, ptr + 1)
    else if t.Sol? then
      To(Slash(true), ptr + 1)
    else if t.Gt? then
      Accept(StartTagWithAtts, ptr + 1)
    else if state.AttGap? then
      After(CheckNmstrt(enc, text, ptr), AttName(false), Refuse(ptr))
    else
      Refuse(ptr)
  }

  /** A complete reference: a token of the content, or a part of an attribute value. */
  function Finish(kind: Kind, container: Container, next: nat): Move {
    if container.InContent? then Accept(kind, next) else To(AttValue(container.quot), next)
  }

  function StepRef(enc: Encoding, state: State, text: seq<Byte>, ptr: nat): Move
    requires ptr < |text|
    requires state.Ref? || state.RefName? || state.NumRef? || state.Digits? || state.HexRef? || state.HexDigits?
  {
    var t := TypeOf(enc, text[ptr]);
    var c := state.container;
    if state.Ref? then
      After(CheckNmstrt(enc, text, ptr), RefName(c), if t.Num? then To(NumRef(c), ptr + 1) else Refuse(ptr))
    else if state.RefName? then
      After(CheckName(enc, text, ptr), state, if t.Semi? then Finish(EntityRef, c, ptr + 1) else Refuse(ptr))
    else if state.NumRef? then
      if text[ptr] == 0x78 then To(HexRef(c), ptr + 1)
      else if t.Digit? then To(Digits(c), ptr + 1)
      else Refuse(ptr)
    else if state.Digits? then
      if t.Digit? then To(state, ptr + 1)
      else if t.Semi? then Finish(CharRef, c, ptr + 1)
      else Refuse(ptr)
    else if t.Digit? || t.Hex? then
      To(HexDigits(c), ptr + 1)
    else if state.HexDigits? && t.Semi? then
      Finish(CharRef, c, ptr + 1)
    else
      Refuse(ptr)
  }

  /** Whether a state can stand at this place. */
  predicate Placed(state: State, ptr: nat) {
    state.PiName? ==> state.target <= ptr
  }

  function Step(enc: Encoding, state: State, text: seq<Byte>, ptr: nat): Move
    requires ptr <= |text| && Placed(state, ptr)
  {
    if ptr == |text| then Done(Partial)
    else if state.AfterLt? then StepLt(enc, text, ptr)
    else if state.AfterExcl? then StepExcl(enc, text, ptr)
    else if state.CdataOpen? then StepCdata(text, ptr)
    else if state.CommentOpen? || state.CommentBody? || state.CommentDash? || state.CommentEnd? then
      StepComment(enc, state, text, ptr)
    else if state.PiStart? then After(CheckNmstrt(enc, text, ptr), PiName(ptr), Refuse(ptr))
    else if state.PiName? then StepPiName(enc, state.target, text, ptr)
    else if state.PiNameQuest? || state.PiBody? || state.PiBodyQuest? then StepPiBody(enc, state, text, ptr)
    else if state.EndStart? || state.EndName? || state.EndGap? then StepEnd(enc, state, text, ptr)
    else if state.StartName? || state.StartColon? || state.StartGap? || state.Slash? then
      StepStart(enc, state, text, ptr)
    else if state.AttName? || state.AttColon? then StepAttName(enc, state, text, ptr)
    else if state.AttBeforeEquals? || state.AttAfterEquals? || state.AttValue? || state.AttClose? || state.AttGap? then
      StepAttRest(enc, state, text, ptr)
    else StepRef(enc, state, text, ptr)
  }

  // ----- a step reads no further than it must -----

  /** A step goes forward, and what it returns lies inside the text. */
  predicate Forward(m: Move, ptr: nat, end: nat) {
    if m.To? then ptr < m.ptr <= end && Placed(m.state, m.ptr)
    else if m.result.Token? then ptr < m.result.next <= end
    else if m.result.Invalid? then ptr <= m.result.at < end
    else m.result.Partial? || m.result.PartialChar?
  }

  predicate Starved(m: Move) {
    m.Done? && NeedsMore(m.result)
  }

  predicate SettledAdvance(a: Advance, longer: Advance, ptr: nat, end: nat) {
    && (a.Go? ==> ptr < a.next <= end)
    && (a.Stop? ==> a.result == Invalid(ptr) || a.result == PartialChar)
    && (a != Stop(PartialChar) ==> longer == a)
  }

  /** More input does not change a step that did not ask for it. */
  predicate Settled(m: Move, longer: Move, ptr: nat, end: nat) {
    Forward(m, ptr, end) && (!Starved(m) ==> longer == m)
  }

  lemma {:induction false} CharSettled(enc: Encoding, text: seq<Byte>, more: seq<Byte>, ptr: nat)
    requires ptr < |text|
    ensures text[ptr] == (text + more)[ptr]
    ensures SettledAdvance(CheckName(enc, text, ptr), CheckName(enc, text + more, ptr), ptr, |text|)
    ensures SettledAdvance(CheckNmstrt(enc, text, ptr), CheckNmstrt(enc, text + more, ptr), ptr, |text|)
    ensures SettledAdvance(CheckChar(enc, text, ptr), CheckChar(enc, text + more, ptr), ptr, |text|)
  {
    hide TypeOf;
    hide InvalidChar;
    var n := Width(TypeOf(enc, text[ptr]));
    if ptr + n <= |text| {
      assert text[ptr..ptr + n] == (text + more)[ptr..ptr + n];
    }
  }

  lemma {:induction false} StepLtSettled(enc: Encoding, text: seq<Byte>, more: seq<Byte>, ptr: nat)
    requires ptr < |text|
    ensures Settled(StepLt(enc, text, ptr), StepLt(enc, text + more, ptr), ptr, |text|)
  {
    hide TypeOf;
    hide CheckName;
    hide CheckNmstrt;
    hide CheckChar;
    CharSettled(enc, text, more, ptr);
  }

  lemma {:induction false} StepExclSettled(enc: Encoding, text: seq<Byte>, more: seq<Byte>, ptr: nat)
    requires ptr < |text|
    ensures Settled(StepExcl(enc, text, ptr), StepExcl(enc, text + more, ptr), ptr, |text|)
  {
    hide TypeOf;
    hide CheckName;
    hide CheckNmstrt;
    hide CheckChar;
    CharSettled(enc, text, more, ptr);
  }

  lemma {:induction false} StepCommentSettled(enc: Encoding, state: State, text: seq<Byte>, more: seq<Byte>, ptr: nat)
    requires ptr < |text|
    ensures Settled(StepComment(enc, state, text, ptr), StepComment(enc, state, text + more, ptr), ptr, |text|)
  {
    hide TypeOf;
    hide CheckName;
    hide CheckNmstrt;
    hide CheckChar;
    CharSettled(enc, text, more, ptr);
  }

  lemma {:induction false} StepPiNameSettled(enc: Encoding, target: nat, text: seq<Byte>, more: seq<Byte>, ptr: nat)
    requires ptr < |text|
    requires target <= ptr
    ensures Settled(StepPiName(enc, target, text, ptr), StepPiName(enc, target, text + more, ptr), ptr, |text|)
  {
    hide TypeOf;
    hide CheckName;
    hide CheckNmstrt;
    hide CheckChar;
    hide TargetOf;
    CharSettled(enc, text, more, ptr);
    assert text[target..ptr] == (text + more)[target..ptr];
  }

  lemma {:induction false} StepPiBodySettled(enc: Encoding, state: State, text: seq<Byte>, more: seq<Byte>, ptr: nat)
    requires ptr < |text|
    requires state.PiNameQuest? || state.PiBody? || state.PiBodyQuest?
    ensures Settled(StepPiBody(enc, state, text, ptr), StepPiBody(enc, state, text + more, ptr), ptr, |text|)
  {
    hide TypeOf;
    hide CheckName;
    hide CheckNmstrt;
    hide CheckChar;
    CharSettled(enc, text, more, ptr);
  }

  lemma {:induction false} StepEndSettled(enc: Encoding, state: State, text: seq<Byte>, more: seq<Byte>, ptr: nat)
    requires ptr < |text|
    ensures Settled(StepEnd(enc, state, text, ptr), StepEnd(enc, state, text + more, ptr), ptr, |text|)
  {
    hide TypeOf;
    hide CheckName;
    hide CheckNmstrt;
    hide CheckChar;
    CharSettled(enc, text, more, ptr);
  }

  lemma {:induction false} StepStartSettled(enc: Encoding, state: State, text: seq<Byte>, more: seq<Byte>, ptr: nat)
    requires ptr < |text|
    requires state.StartName? || state.StartColon? || state.StartGap? || state.Slash?
    ensures Settled(StepStart(enc, state, text, ptr), StepStart(enc, state, text + more, ptr), ptr, |text|)
  {
    hide TypeOf;
    hide CheckName;
    hide CheckNmstrt;
    hide CheckChar;
    CharSettled(enc, text, more, ptr);
  }

  lemma {:induction false} StepAttNameSettled(enc: Encoding, state: State, text: seq<Byte>, more: seq<Byte>, ptr: nat)
    requires ptr < |text|
    requires state.AttName? || state.AttColon?
    ensures Settled(StepAttName(enc, state, text, ptr), StepAttName(enc, state, text + more, ptr), ptr, |text|)
  {
    hide TypeOf;
    hide CheckName;
    hide CheckNmstrt;
    hide CheckChar;
    CharSettled(enc, text, more, ptr);
  }

  lemma {:induction false} StepAttRestSettled(enc: Encoding, state: State, text: seq<Byte>, more: seq<Byte>, ptr: nat)
    requires ptr < |text|
    requires state.AttBeforeEquals? || state.AttAfterEquals? || state.AttValue? || state.AttClose? || state.AttGap?
    ensures Settled(StepAttRest(enc, state, text, ptr), StepAttRest(enc, state, text + more, ptr), ptr, |text|)
  {
    hide TypeOf;
    hide CheckName;
    hide CheckNmstrt;
    hide CheckChar;
    CharSettled(enc, text, more, ptr);
  }

  lemma {:induction false} StepRefSettled(enc: Encoding, state: State, text: seq<Byte>, more: seq<Byte>, ptr: nat)
    requires ptr < |text|
    requires state.Ref? || state.RefName? || state.NumRef? || state.Digits? || state.HexRef? || state.HexDigits?
    ensures Settled(StepRef(enc, state, text, ptr), StepRef(enc, state, text + more, ptr), ptr, |text|)
  {
    hide TypeOf;
    hide CheckName;
    hide CheckNmstrt;
    hide CheckChar;
    CharSettled(enc, text, more, ptr);
  }

  lemma {:induction false} MismatchSettled(text: seq<Byte>, more: seq<Byte>, ptr: nat, i: nat)
    requires i <= 6 && ptr + 6 <= |text|
    ensures Mismatch(text + more, ptr, i) == Mismatch(text, ptr, i)
    decreases 6 - i
  {
    if i < 6 {
      MismatchSettled(text, more, ptr, i + 1);
    }
  }

  lemma {:induction false} StepCdataSettled(text: seq<Byte>, more: seq<Byte>, ptr: nat)
    requires ptr < |text|
    ensures Settled(StepCdata(text, ptr), StepCdata(text + more, ptr), ptr, |text|)
  {
    if ptr + 6 <= |text| {
      MismatchSettled(text, more, ptr, 0);
    }
  }

  lemma {:induction false} StepSettled(enc: Encoding, state: State, text: seq<Byte>, more: seq<Byte>, ptr: nat)
    requires ptr <= |text| && Placed(state, ptr)
    ensures Settled(Step(enc, state, text, ptr), Step(enc, state, text + more, ptr), ptr, |text|)
  {
    hide TypeOf;
    hide StepLt;
    hide StepExcl;
    hide StepCdata;
    hide StepComment;
    hide StepPiName;
    hide StepPiBody;
    hide StepEnd;
    hide StepStart;
    hide StepAttName;
    hide StepAttRest;
    hide StepRef;
    hide CheckNmstrt;
    if ptr == |text| {
    } else if state.AfterLt? {
      StepLtSettled(enc, text, more, ptr);
    } else if state.AfterExcl? {
      StepExclSettled(enc, text, more, ptr);
    } else if state.CdataOpen? {
      StepCdataSettled(text, more, ptr);
    } else if state.CommentOpen? || state.CommentBody? || state.CommentDash? || state.CommentEnd? {
      StepCommentSettled(enc, state, text, more, ptr);
    } else if state.PiStart? {
      CharSettled(enc, text, more, ptr);
    } else if state.PiName? {
      StepPiNameSettled(enc, state.target, text, more, ptr);
    } else if state.PiNameQuest? || state.PiBody? || state.PiBodyQuest? {
      StepPiBodySettled(enc, state, text, more, ptr);
    } else if state.EndStart? || state.EndName? || state.EndGap? {
      StepEndSettled(enc, state, text, more, ptr);
    } else if state.StartName? || state.StartColon? || state.StartGap? || state.Slash? {
      StepStartSettled(enc, state, text, more, ptr);
    } else if state.AttName? || state.AttColon? {
      StepAttNameSettled(enc, state, text, more, ptr);
    } else if state.AttBeforeEquals? || state.AttAfterEquals? || state.AttValue? || state.AttClose? || state.AttGap? {
      StepAttRestSettled(enc, state, text, more, ptr);
    } else {
      StepRefSettled(enc, state, text, more, ptr);
    }
  }

  /** Runs the machine to its result. */
  function Scan(enc: Encoding, state: State, text: seq<Byte>, ptr: nat): (r: Result)
    requires ptr <= |text| && Placed(state, ptr)
    ensures r.Token? ==> ptr < r.next <= |text|
    ensures r.Invalid? ==> ptr <= r.at < |text|
    ensures NeedsMore(r) ==> r.Partial? || r.PartialChar?
    decreases |text| - ptr
  {
    StepSettled(enc, state, text, [], ptr);
    var m := Step(enc, state, text, ptr);
    if m.Done? then m.result else Scan(enc, m.state, text, m.ptr)
  }

  /** A scanner that reached a verdict reaches the same verdict on any longer input. */
  lemma {:induction false} ScanSettled(enc: Encoding, state: State, text: seq<Byte>, more: seq<Byte>, ptr: nat)
    requires ptr <= |text| && Placed(state, ptr)
    requires !NeedsMore(Scan(enc, state, text, ptr))
    ensures Scan(enc, state, text + more, ptr) == Scan(enc, state, text, ptr)
    decreases |text| - ptr
  {
    hide Step;
    StepSettled(enc, state, text, more, ptr);
    var m := Step(enc, state, text, ptr);
    if m.To? {
      ScanSettled(enc, m.state, text, more, m.ptr);
    }
  }

  /** One step of the machine. */
  lemma {:induction false} ScanStep(enc: Encoding, state: State, text: seq<Byte>, ptr: nat)
    requires ptr <= |text| && Placed(state, ptr)
    ensures var m := Step(enc, state, text, ptr);
            && Forward(m, ptr, |text|)
            && Scan(enc, state, text, ptr) == if m.Done? then m.result else Scan(enc, m.state, text, m.ptr)
  {
    hide Step;
    StepSettled(enc, state, text, [], ptr);
  }

  /** The same for the states of a reference. */
  lemma {:induction false} ScanStepRef(enc: Encoding, state: State, text: seq<Byte>, ptr: nat)
    requires ptr <= |text|
    requires state.Ref? || state.RefName? || state.NumRef? || state.Digits? || state.HexRef? || state.HexDigits?
    ensures ptr == |text| ==> Scan(enc, state, text, ptr) == Partial
    ensures ptr < |text| ==>
              var m := StepRef(enc, state, text, ptr);
              && Forward(m, ptr, |text|)
              && Scan(enc, state, text, ptr) == if m.Done? then m.result else Scan(enc, m.state, text, m.ptr)
  {
    hide StepLt;
    hide StepExcl;
    hide StepCdata;
    hide StepComment;
    hide StepPiName;
    hide StepPiBody;
    hide StepEnd;
    hide StepStart;
    hide StepAttName;
    hide StepAttRest;
    hide Scan;
    hide StepRef;
    ScanStep(enc, state, text, ptr);
  }

  // ----- a scanner never looks behind its pointer -----

  function ShiftState(state: State, k: nat): State {
    if state.PiName? then PiName(state.target + k) else state
  }

  function ShiftResult(r: Result, k: nat): Result {
    if r.Token? then Token(r.kind, r.next + k) else if r.Invalid? then Invalid(r.at + k) else r
  }

  function ShiftMove(m: Move, k: nat): Move {
    if m.To? then To(ShiftState(m.state, k), m.ptr + k) else Done(ShiftResult(m.result, k))
  }

  function ShiftAdvance(a: Advance, k: nat): Advance {
    if a.Go? then Go(a.next + k) else if a.Stop? then Stop(ShiftResult(a.result, k)) else a
  }

  lemma {:induction false} MultiByteShifts(before: seq<Byte>, text: seq<Byte>, ptr: nat, n: nat,
                                           test: seq<Byte> -> bool)
    requires ptr < |text|
    ensures MultiByte(before + text, |before| + ptr, n, test) == ShiftAdvance(MultiByte(text, ptr, n, test), |before|)
  {
    if ptr + n <= |text| {
      assert text[ptr..ptr + n] == (before + text)[|before| + ptr..|before| + ptr + n];
    }
  }

  lemma {:induction false} CharShifts(enc: Encoding, before: seq<Byte>, text: seq<Byte>, ptr: nat)
    requires ptr < |text|
    ensures text[ptr] == (before + text)[|before| + ptr]
    ensures CheckName(enc, before + text, |before| + ptr) == ShiftAdvance(CheckName(enc, text, ptr), |before|)
    ensures CheckNmstrt(enc, before + text, |before| + ptr) == ShiftAdvance(CheckNmstrt(enc, text, ptr), |before|)
    ensures CheckChar(enc, before + text, |before| + ptr) == ShiftAdvance(CheckChar(enc, text, ptr), |before|)
  {
    hide TypeOf;
    hide MultiByte;
    hide NameTest;
    hide NmstrtTest;
    hide CharTest;
    var n := Width(TypeOf(enc, text[ptr]));
    MultiByteShifts(before, text, ptr, n, NameTest(enc));
    MultiByteShifts(before, text, ptr, n, NmstrtTest(enc));
    MultiByteShifts(before, text, ptr, n, CharTest());
  }

  lemma {:induction false} StepLtShifts(enc: Encoding, before: seq<Byte>, text: seq<Byte>, ptr: nat)
    requires ptr < |text|
    ensures StepLt(enc, before + text, |before| + ptr) == ShiftMove(StepLt(enc, text, ptr), |before|)
  {
    hide TypeOf;
    hide CheckName;
    hide CheckNmstrt;
    hide CheckChar;
    CharShifts(enc, before, text, ptr);
  }

  lemma {:induction false} StepExclShifts(enc: Encoding, before: seq<Byte>, text: seq<Byte>, ptr: nat)
    requires ptr < |text|
    ensures StepExcl(enc, before + text, |before| + ptr) == ShiftMove(StepExcl(enc, text, ptr), |before|)
  {
    hide TypeOf;
    hide CheckName;
    hide CheckNmstrt;
    hide CheckChar;
    CharShifts(enc, before, text, ptr);
  }

  lemma {:induction false} StepCommentShifts(enc: Encoding, state: State, before: seq<Byte>, text: seq<Byte>, ptr: nat)
    requires ptr < |text|
    ensures StepComment(enc, state, before + text, |before| + ptr) ==
        ShiftMove(StepComment(enc, state, text, ptr), |before|)
  {
    hide TypeOf;
    hide CheckName;
    hide CheckNmstrt;
    hide CheckChar;
    CharShifts(enc, before, text, ptr);
  }

  lemma {:induction false} StepPiNameShifts(enc: Encoding, target: nat, before: seq<Byte>, text: seq<Byte>, ptr: nat)
    requires ptr < |text|
    requires target <= ptr
    ensures StepPiName(enc, target + |before|, before + text, |before| + ptr) ==
        ShiftMove(StepPiName(enc, target, text, ptr), |before|)
  {
    hide TypeOf;
    hide CheckName;
    hide CheckNmstrt;
    hide CheckChar;
    hide TargetOf;
    CharShifts(enc, before, text, ptr);
    assert text[target..ptr] == (before + text)[target + |before|..|before| + ptr];
  }

  lemma {:induction false} StepPiBodyShifts(enc: Encoding, state: State, before: seq<Byte>, text: seq<Byte>, ptr: nat)
    requires ptr < |text|
    requires state.PiNameQuest? || state.PiBody? || state.PiBodyQuest?
    ensures StepPiBody(enc, state, before + text, |before| + ptr) ==
        ShiftMove(StepPiBody(enc, state, text, ptr), |before|)
  {
    hide TypeOf;
    hide CheckName;
    hide CheckNmstrt;
    hide CheckChar;
    CharShifts(enc, before, text, ptr);
  }

  lemma {:induction false} StepEndShifts(enc: Encoding, state: State, before: seq<Byte>, text: seq<Byte>, ptr: nat)
    requires ptr < |text|
    ensures StepEnd(enc, state, before + text, |before| + ptr) == ShiftMove(StepEnd(enc, state, text, ptr), |before|)
  {
    hide TypeOf;
    hide CheckName;
    hide CheckNmstrt;
    hide CheckChar;
    CharShifts(enc, before, text, ptr);
  }

  lemma {:induction false} StepStartShifts(enc: Encoding, state: State, before: seq<Byte>, text: seq<Byte>, ptr: nat)
    requires ptr < |text|
    requires state.StartName? || state.StartColon? || state.StartGap? || state.Slash?
    ensures StepStart(enc, state, before + text, |before| + ptr) ==
        ShiftMove(StepStart(enc, state, text, ptr), |before|)
  {
    hide TypeOf;
    hide CheckName;
    hide CheckNmstrt;
    hide CheckChar;
    CharShifts(enc, before, text, ptr);
  }

  lemma {:induction false} StepAttNameShifts(enc: Encoding, state: State, before: seq<Byte>, text: seq<Byte>, ptr: nat)
    requires ptr < |text|
    requires state.AttName? || state.AttColon?
    ensures StepAttName(enc, state, before + text, |before| + ptr) ==
        ShiftMove(StepAttName(enc, state, text, ptr), |before|)
  {
    hide TypeOf;
    hide CheckName;
    hide CheckNmstrt;
    hide CheckChar;
    CharShifts(enc, before, text, ptr);
  }

  lemma {:induction false} StepAttRestShifts(enc: Encoding, state: State, before: seq<Byte>, text: seq<Byte>, ptr: nat)
    requires ptr < |text|
    requires state.AttBeforeEquals? || state.AttAfterEquals? || state.AttValue? || state.AttClose? || state.AttGap?
    ensures StepAttRest(enc, state, before + text, |before| + ptr) ==
        ShiftMove(StepAttRest(enc, state, text, ptr), |before|)
  {
    hide TypeOf;
    hide CheckName;
    hide CheckNmstrt;
    hide CheckChar;
    CharShifts(enc, before, text, ptr);
  }

  lemma {:induction false} StepRefShifts(enc: Encoding, state: State, before: seq<Byte>, text: seq<Byte>, ptr: nat)
    requires ptr < |text|
    requires state.Ref? || state.RefName? || state.NumRef? || state.Digits? || state.HexRef? || state.HexDigits?
    ensures StepRef(enc, state, before + text, |before| + ptr) == ShiftMove(StepRef(enc, state, text, ptr), |before|)
  {
    hide TypeOf;
    hide CheckName;
    hide CheckNmstrt;
    hide CheckChar;
    CharShifts(enc, before, text, ptr);
  }

  lemma {:induction false} MismatchShifts(before: seq<Byte>, text: seq<Byte>, ptr: nat, i: nat)
    requires i <= 6 && ptr + 6 <= |text|
    ensures Mismatch(before + text, |before| + ptr, i) == Mismatch(text, ptr, i)
    decreases 6 - i
  {
    if i < 6 {
      assert (before + text)[|before| + ptr + i] == text[ptr + i];
      MismatchShifts(before, text, ptr, i + 1);
    }
  }

  lemma {:induction false} StepCdataShifts(before: seq<Byte>, text: seq<Byte>, ptr: nat)
    requires ptr < |text|
    ensures StepCdata(before + text, |before| + ptr) == ShiftMove(StepCdata(text, ptr), |before|)
  {
    if ptr + 6 <= |text| {
      MismatchShifts(before, text, ptr, 0);
    }
  }

  lemma {:induction false} StepShifts(enc: Encoding, state: State, before: seq<Byte>, text: seq<Byte>, ptr: nat)
    requires ptr <= |text| && Placed(state, ptr)
    ensures Step(enc, ShiftState(state, |before|), before + text, |before| + ptr) ==
            ShiftMove(Step(enc, state, text, ptr), |before|)
  {
    hide TypeOf;
    hide StepLt;
    hide StepExcl;
    hide StepCdata;
    hide StepComment;
    hide StepPiName;
    hide StepPiBody;
    hide StepEnd;
    hide StepStart;
    hide StepAttName;
    hide StepAttRest;
    hide StepRef;
    hide CheckNmstrt;
    if ptr == |text| {
    } else if state.AfterLt? {
      StepLtShifts(enc, before, text, ptr);
    } else if state.AfterExcl? {
      StepExclShifts(enc, before, text, ptr);
    } else if state.CdataOpen? {
      StepCdataShifts(before, text, ptr);
    } else if state.CommentOpen? || state.CommentBody? || state.CommentDash? || state.CommentEnd? {
      StepCommentShifts(enc, state, before, text, ptr);
    } else if state.PiStart? {
      CharShifts(enc, before, text, ptr);
    } else if state.PiName? {
      StepPiNameShifts(enc, state.target, before, text, ptr);
    } else if state.PiNameQuest? || state.PiBody? || state.PiBodyQuest? {
      StepPiBodyShifts(enc, state, before, text, ptr);
    } else if state.EndStart? || state.EndName? || state.EndGap? {
      StepEndShifts(enc, state, before, text, ptr);
    } else if state.StartName? || state.StartColon? || state.StartGap? || state.Slash? {
      StepStartShifts(enc, state, before, text, ptr);
    } else if state.AttName? || state.AttColon? {
      StepAttNameShifts(enc, state, before, text, ptr);
    } else if state.AttBeforeEquals? || state.AttAfterEquals? || state.AttValue? || state.AttClose? || state.AttGap? {
      StepAttRestShifts(enc, state, before, text, ptr);
    } else {
      StepRefShifts(enc, state, before, text, ptr);
    }
  }

  lemma {:induction false} ScanShifts(enc: Encoding, state: State, before: seq<Byte>, text: seq<Byte>, ptr: nat)
    requires ptr <= |text| && Placed(state, ptr)
    ensures Scan(enc, ShiftState(state, |before|), before + text, |before| + ptr) ==
            ShiftResult(Scan(enc, state, text, ptr), |before|)
    decreases |text| - ptr
  {
    hide Step;
    ScanStep(enc, state, text, ptr);
    ScanStep(enc, ShiftState(state, |before|), before + text, |before| + ptr);
    StepShifts(enc, state, before, text, ptr);
    var m := Step(enc, state, text, ptr);
    if m.To? {
      ScanShifts(enc, m.state, before, text, m.ptr);
    }
  }
}

/** The scanners themselves: loops that advance a pointer. */
module Scanners {
  import opened Bytes
  import opened MarkupMachine

  method ScanComment(enc: Encoding, text: seq<Byte>, start: nat) returns (r: Result)
    requires start <= |text|
    ensures r == Scan(enc, CommentOpen, text, start)
  {
    hide StepLt;
    hide StepExcl;
    hide StepCdata;
    hide StepPiName;
    hide StepPiBody;
    hide StepEnd;
    hide StepStart;
    hide StepAttName;
    hide StepAttRest;
    hide StepRef;
    hide Scan;
    hide TypeOf;
    hide CheckChar;
    var ptr := start;
    ScanStep(enc, CommentOpen, text, ptr);
    if ptr != |text| {
      if text[ptr] != 0x2d {
        return Invalid(ptr);
      }
      ptr := ptr + 1;
      while ptr != |text|
        invariant start <= ptr <= |text|
        invariant Scan(enc, CommentOpen, text, start) == Scan(enc, CommentBody, text, ptr)
        decreases |text| - ptr
      {
        ScanStep(enc, CommentBody, text, ptr);
        var a := CheckChar(enc, text, ptr);
        if a.Go? {
          ptr := a.next;
        } else if a.Stop? {
          return a.result;
        } else if TypeOf(enc, text[ptr]).Minus? {
          ptr := ptr + 1;
          ScanStep(enc, CommentDash, text, ptr);
          if ptr == |text| {
            return Partial;
          }
          if text[ptr] == 0x2d {
            ptr := ptr + 1;
            ScanStep(enc, CommentEnd, text, ptr);
            if ptr == |text| {
              return Partial;
            }
            if text[ptr] != 0x3e {
              return Invalid(ptr);
            }
            return Token(Comment, ptr + 1);
          }
          ScanStep(enc, CommentBody, text, ptr);
        } else {
          ptr := ptr + 1;
        }
      }
      ScanStep(enc, CommentBody, text, ptr);
    }
    return Partial;
  }

  method ScanCdataSection(text: seq<Byte>, start: nat, enc: Encoding) returns (r: Result)
    requires start <= |text|
    ensures r == Scan(enc, CdataOpen, text, start)
  {
    hide StepLt;
    hide StepExcl;
    hide StepComment;
    hide StepPiName;
    hide StepPiBody;
    hide StepEnd;
    hide StepStart;
    hide StepAttName;
    hide StepAttRest;
    hide StepRef;
    hide Scan;
    ScanStep(enc, CdataOpen, text, start);
    if |text| - start < 6 {
      return Partial;
    }
    var i := 0;
    var ptr := start;
    while i < 6
      invariant 0 <= i <= 6 && ptr == start + i
      invariant Mismatch(text, start, 0) == Mismatch(text, start, i)
    {
      if text[ptr] != CDATA_LSQB[i] {
        return Invalid(ptr);
      }
      i := i + 1;
      ptr := ptr + 1;
    }
    return Token(CdataSectOpen, ptr);
  }

  method CheckPiTarget(text: seq<Byte>, start: nat, end: nat) returns (target: PiTarget)
    requires start <= end <= |text|
    ensures target == TargetOf(text[start..end])
  {
    var upper := false;
    if end - start != 3 {
      return Ordinary;
    }
    ghost var name := text[start..end];
    var ptr := start;
    assert name[0] == text[ptr] && name[1] == text[ptr + 1] && name[2] == text[ptr + 2];
    if text[ptr] == 0x58 {
      upper := true;
    } else if text[ptr] != 0x78 {
      return Ordinary;
    }
    ptr := ptr + 1;
    if text[ptr] == 0x4d {
      upper := true;
    } else if text[ptr] != 0x6d {
      return Ordinary;
    }
    ptr := ptr + 1;
    if text[ptr] == 0x4c {
      upper := true;
    } else if text[ptr] != 0x6c {
      return Ordinary;
    }
    if upper {
      return Forbidden;
    }
    return XmlTarget;
  }

  method ScanPi(enc: Encoding, text: seq<Byte>, start: nat) returns (r: Result)
    requires start <= |text|
    ensures r == Scan(enc, PiStart, text, start)
  {
    hide StepLt;
    hide StepExcl;
    hide StepCdata;
    hide StepComment;
    hide StepEnd;
    hide StepStart;
    hide StepAttName;
    hide StepAttRest;
    hide StepRef;
    hide Scan;
    hide TypeOf;
    hide CheckName;
    hide CheckNmstrt;
    hide TargetOf;
    ScanStep(enc, PiStart, text, start);
    if start == |text| {
      return Partial;
    }
    var a := CheckNmstrt(enc, text, start);
    if !a.Go? {
      return if a.Stop? then a.result else Invalid(start);
    }
    var ptr := a.next;
    while ptr != |text|
      invariant start <= ptr <= |text|
      invariant Scan(enc, PiStart, text, start) == Scan(enc, PiName(start), text, ptr)
      decreases |text| - ptr
    {
      ScanStep(enc, PiName(start), text, ptr);
      a := CheckName(enc, text, ptr);
      var t := TypeOf(enc, text[ptr]);
      if a.Go? {
        ptr := a.next;
      } else if a.Stop? {
        return a.result;
      } else if IsSpace(t) {
        var target := CheckPiTarget(text, start, ptr);
        if target.Forbidden? {
          return Invalid(ptr);
        }
        r := ScanPiBody(enc, text, ptr + 1, target.XmlTarget?);
        return;
      } else if t.Quest? {
        var target := CheckPiTarget(text, start, ptr);
        if target.Forbidden? {
          return Invalid(ptr);
        }
        ptr := ptr + 1;
        ScanStep(enc, PiNameQuest(target.XmlTarget?), text, ptr);
        if ptr == |text| {
          return Partial;
        }
        if text[ptr] == 0x3e {
          return Token(PiKind(target.XmlTarget?), ptr + 1);
        }
        return Invalid(ptr);
      } else {
        return Invalid(ptr);
      }
    }
    ScanStep(enc, PiName(start), text, ptr);
    return Partial;
  }

  /** The inner loop of scanPi, after the target and a space. */
  method ScanPiBody(enc: Encoding, text: seq<Byte>, start: nat, xml: bool) returns (r: Result)
    requires start <= |text|
    ensures r == Scan(enc, PiBody(xml), text, start)
  {
    hide StepLt;
    hide StepExcl;
    hide StepCdata;
    hide StepComment;
    hide StepPiName;
    hide StepEnd;
    hide StepStart;
    hide StepAttName;
    hide StepAttRest;
    hide StepRef;
    hide Scan;
    hide TypeOf;
    hide CheckChar;
    var ptr := start;
    while ptr != |text|
      invariant start <= ptr <= |text|
      invariant Scan(enc, PiBody(xml), text, start) == Scan(enc, PiBody(xml), text, ptr)
      decreases |text| - ptr
    {
      ScanStep(enc, PiBody(xml), text, ptr);
      var a := CheckChar(enc, text, ptr);
      if a.Go? {
        ptr := a.next;
      } else if a.Stop? {
        return a.result;
      } else if TypeOf(enc, text[ptr]).Quest? {
        ptr := ptr + 1;
        ScanStep(enc, PiBodyQuest(xml), text, ptr);
        if ptr == |text| {
          return Partial;
        }
        if text[ptr] == 0x3e {
          return Token(PiKind(xml), ptr + 1);
        }
        ScanStep(enc, PiBody(xml), text, ptr);
      } else {
        ptr := ptr + 1;
      }
    }
    ScanStep(enc, PiBody(xml), text, ptr);
    return Partial;
  }

  method ScanEndTag(enc: Encoding, text: seq<Byte>, start: nat) returns (r: Result)
    requires start <= |text|
    ensures r == Scan(enc, EndStart, text, start)
  {
    hide StepLt;
    hide StepExcl;
    hide StepCdata;
    hide StepComment;
    hide StepPiName;
    hide StepPiBody;
    hide StepStart;
    hide StepAttName;
    hide StepAttRest;
    hide StepRef;
    hide Scan;
    hide TypeOf;
    hide CheckName;
    hide CheckNmstrt;
    ScanStep(enc, EndStart, text, start);
    if start == |text| {
      return Partial;
    }
    var a := CheckNmstrt(enc, text, start);
    if !a.Go? {
      return if a.Stop? then a.result else Invalid(start);
    }
    var ptr := a.next;
    while ptr != |text|
      invariant start <= ptr <= |text|
      invariant Scan(enc, EndStart, text, start) == Scan(enc, EndName, text, ptr)
      decreases |text| - ptr
    {
      ScanStep(enc, EndName, text, ptr);
      a := CheckName(enc, text, ptr);
      var t := TypeOf(enc, text[ptr]);
      if a.Go? {
        ptr := a.next;
      } else if a.Stop? {
        return a.result;
      } else if IsSpace(t) {
        ptr := ptr + 1;
        while ptr != |text|
          invariant start <= ptr <= |text|
          invariant Scan(enc, EndStart, text, start) == Scan(enc, EndGap, text, ptr)
          decreases |text| - ptr
        {
          ScanStep(enc, EndGap, text, ptr);
          t := TypeOf(enc, text[ptr]);
          if t.Gt? {
            return Token(EndTag, ptr + 1);
          } else if !IsSpace(t) {
            return Invalid(ptr);
          }
          ptr := ptr + 1;
        }
        ScanStep(enc, EndGap, text, ptr);
        return Partial;
      } else if t.Colon? {
        ptr := ptr + 1;
      } else if t.Gt? {
        return Token(EndTag, ptr + 1);
      } else {
        return Invalid(ptr);
      }
    }
    ScanStep(enc, EndName, text, ptr);
    return Partial;
  }

  /** Where the machine goes on behind a reference. */
  function ValueOf(container: Container): State {
    AttValue(container.InValue? && container.quot)
  }

  method ScanHexCharRef(enc: Encoding, text: seq<Byte>, start: nat, container: Container) returns (m: Move)
    requires start <= |text|
    ensures ResumesAt(m, ValueOf(container), enc, HexRef(container), text, start)
    ensures container.InContent? ==> m.Done?
  {
    hide Scan;
    hide Step;
    hide TypeOf;
    var ptr := start;
    ScanStepRef(enc, HexRef(container), text, ptr);
    if ptr != |text| {
      var t := TypeOf(enc, text[ptr]);
      if !t.Digit? && !t.Hex? {
        return Refuse(ptr);
      }
      ptr := ptr + 1;
      while ptr != |text|
        invariant start <= ptr <= |text|
        invariant Scan(enc, HexRef(container), text, start) == Scan(enc, HexDigits(container), text, ptr)
        decreases |text| - ptr
      {
        ScanStepRef(enc, HexDigits(container), text, ptr);
        t := TypeOf(enc, text[ptr]);
        if t.Semi? {
          return Finish(CharRef, container, ptr + 1);
        } else if !t.Digit? && !t.Hex? {
          return Refuse(ptr);
        }
        ptr := ptr + 1;
      }
      ScanStepRef(enc, HexDigits(container), text, ptr);
    }
    return Done(Partial);
  }

  method ScanCharRef(enc: Encoding, text: seq<Byte>, start: nat, container: Container) returns (m: Move)
    requires start <= |text|
    ensures ResumesAt(m, ValueOf(container), enc, NumRef(container), text, start)
    ensures container.InContent? ==> m.Done?
  {
    hide Scan;
    hide Step;
    hide TypeOf;
    var ptr := start;
    ScanStepRef(enc, NumRef(container), text, ptr);
    if ptr != |text| {
      if text[ptr] == 0x78 {
        m := ScanHexCharRef(enc, text, ptr + 1, container);
        return;
      }
      var t := TypeOf(enc, text[ptr]);
      if !t.Digit? {
        return Refuse(ptr);
      }
      ptr := ptr + 1;
      while ptr != |text|
        invariant start <= ptr <= |text|
        invariant Scan(enc, NumRef(container), text, start) == Scan(enc, Digits(container), text, ptr)
        decreases |text| - ptr
      {
        ScanStepRef(enc, Digits(container), text, ptr);
        t := TypeOf(enc, text[ptr]);
        if t.Semi? {
          return Finish(CharRef, container, ptr + 1);
        } else if !t.Digit? {
          return Refuse(ptr);
        }
        ptr := ptr + 1;
      }
      ScanStepRef(enc, Digits(container), text, ptr);
    }
    return Done(Partial);
  }

  /**
   * A reference, after the '&'.  In content the result is a token; in an attribute value the
   * caller goes on in the value behind the reference.
   */
  method ScanRef(enc: Encoding, text: seq<Byte>, start: nat, container: Container) returns (m: Move)
    requires start <= |text|
    ensures ResumesAt(m, ValueOf(container), enc, Ref(container), text, start)
    ensures container.InContent? ==> m.Done?
  {
    hide Scan;
    hide Step;
    hide TypeOf;
    hide CheckName;
    hide CheckNmstrt;
    ScanStepRef(enc, Ref(container), text, start);
    if start == |text| {
      return Done(Partial);
    }
    var a := CheckNmstrt(enc, text, start);
    if a.Stop? {
      return Done(a.result);
    } else if a.NoMatch? {
      if TypeOf(enc, text[start]).Num? {
        m := ScanCharRef(enc, text, start + 1, container);
        return;
      }
      return Refuse(start);
    }
    var ptr := a.next;
    while ptr != |text|
      invariant start <= ptr <= |text|
      invariant Scan(enc, Ref(container), text, start) == Scan(enc, RefName(container), text, ptr)
      decreases |text| - ptr
    {
      ScanStepRef(enc, RefName(container), text, ptr);
      a := CheckName(enc, text, ptr);
      if a.Go? {
        ptr := a.next;
      } else if a.Stop? {
        return Done(a.result);
      } else if TypeOf(enc, text[ptr]).Semi? {
        return Finish(EntityRef, container, ptr + 1);
      } else {
        return Refuse(ptr);
      }
    }
    ScanStepRef(enc, RefName(container), text, ptr);
    return Done(Partial);
  }

  /** The loop over an attribute value, up to and with its closing quote. */
  method ScanValue(enc: Encoding, text: seq<Byte>, start: nat, quot: bool) returns (m: Move)
    requires start <= |text|
    ensures ResumesAt(m, AttClose, enc, AttValue(quot), text, start)
  {
    hide Scan;
    hide TypeOf;
    hide CheckChar;
    hide StepLt;
    hide StepExcl;
    hide StepCdata;
    hide StepComment;
    hide StepPiName;
    hide StepPiBody;
    hide StepEnd;
    hide StepStart;
    hide StepAttName;
    hide StepRef;
    var ptr := start;
    while ptr != |text|
      invariant start <= ptr <= |text|
      invariant Scan(enc, AttValue(quot), text, start) == Scan(enc, AttValue(quot), text, ptr)
      decreases |text| - ptr
    {
      ScanStep(enc, AttValue(quot), text, ptr);
      var t := TypeOf(enc, text[ptr]);
      if IsOpen(t, quot) {
        return To(AttClose, ptr + 1);
      }
      var a := CheckChar(enc, text, ptr);
      if a.Go? {
        ptr := a.next;
      } else if a.Stop? {
        return Done(a.result);
      } else if t.Amp? {
        m := ScanRef(enc, text, ptr + 1, InValue(quot));
        if m.Done? {
          return;
        }
        ptr := m.ptr;
      } else if t.Lt? {
        return Refuse(ptr);
      } else {
        ptr := ptr + 1;
      }
    }
    ScanStep(enc, AttValue(quot), text, ptr);
    return Done(Partial);
  }

  /** The end of an empty-element tag, after its '/'. */
  method ScanSlash(enc: Encoding, text: seq<Byte>, ptr: nat, atts: bool) returns (r: Result)
    requires ptr <= |text|
    ensures r == Scan(enc, Slash(atts), text, ptr)
  {
    hide Scan;
    hide TypeOf;
    hide StepCdata;
    hide StepComment;
    hide StepPiName;
    hide StepPiBody;
    hide StepEnd;
    hide StepAttName;
    hide StepAttRest;
    hide StepRef;
    ScanStep(enc, Slash(atts), text, ptr);
    if ptr == |text| {
      return Partial;
    }
    if text[ptr] != 0x3e {
      return Invalid(ptr);
    }
    return Token(if atts then EmptyElementWithAtts else EmptyElementNoAtts, ptr + 1);
  }

  /** Behind a closing quote: the end of the tag, or the first character of the next name. */
  method ScanGap(enc: Encoding, text: seq<Byte>, start: nat) returns (m: Move)
    requires start <= |text|
    ensures ResumesAt(m, AttName(false), enc, AttClose, text, start)
  {
    hide Scan;
    hide TypeOf;
    hide CheckNmstrt;
    hide StepLt;
    hide StepExcl;
    hide StepCdata;
    hide StepComment;
    hide StepPiName;
    hide StepPiBody;
    hide StepEnd;
    hide StepStart;
    hide StepAttName;
    hide StepRef;
    var ptr := start;
    ScanStep(enc, AttClose, text, ptr);
    if ptr == |text| {
      return Done(Partial);
    }
    var t := TypeOf(enc, text[ptr]);
    if t.Gt? {
      return Accept(StartTagWithAtts, ptr + 1);
    } else if t.Sol? {
      var r := ScanSlash(enc, text, ptr + 1, true);
      return Done(r);
    } else if !IsSpace(t) {
      return Refuse(ptr);
    }
    ptr := ptr + 1;
    while ptr != |text|
      invariant start < ptr <= |text|
      invariant Scan(enc, AttClose, text, start) == Scan(enc, AttGap, text, ptr)
      decreases |text| - ptr
    {
      ScanStep(enc, AttGap, text, ptr);
      t := TypeOf(enc, text[ptr]);
      var a := CheckNmstrt(enc, text, ptr);
      if IsSpace(t) {
        ptr := ptr + 1;
      } else if t.Gt? {
        return Accept(StartTagWithAtts, ptr + 1);
      } else if t.Sol? {
        var r := ScanSlash(enc, text, ptr + 1, true);
        return Done(r);
      } else {
        return After(a, AttName(false), Refuse(ptr));
      }
    }
    ScanStep(enc, AttGap, text, ptr);
    return Done(Partial);
  }

  /** From behind '=' to the next attribute name. */
  method ScanAttRest(enc: Encoding, text: seq<Byte>, start: nat) returns (m: Move)
    requires start <= |text|
    ensures ResumesAt(m, AttName(false), enc, AttAfterEquals, text, start)
  {
    hide Scan;
    hide TypeOf;
    hide StepLt;
    hide StepExcl;
    hide StepCdata;
    hide StepComment;
    hide StepPiName;
    hide StepPiBody;
    hide StepEnd;
    hide StepStart;
    hide StepAttName;
    hide StepRef;
    var ptr := start;
    while ptr != |text|
      invariant start <= ptr <= |text|
      invariant Scan(enc, AttAfterEquals, text, start) == Scan(enc, AttAfterEquals, text, ptr)
      decreases |text| - ptr
    {
      ScanStep(enc, AttAfterEquals, text, ptr);
      var open := TypeOf(enc, text[ptr]);
      ptr := ptr + 1;
      if open.Quot? || open.Apos? {
        m := ScanValue(enc, text, ptr, open.Quot?);
        if m.To? {
          m := ScanGap(enc, text, m.ptr);
        }
        return;
      } else if !IsSpace(open) {
        return Refuse(ptr - 1);
      }
    }
    ScanStep(enc, AttAfterEquals, text, ptr);
    return Done(Partial);
  }

  /** The attributes of a start tag, after the first character of the first name. */
  method ScanAtts(enc: Encoding, text: seq<Byte>, start: nat) returns (r: Result)
    requires start <= |text|
    ensures r == Scan(enc, AttName(false), text, start)
  {
    hide Scan;
    hide TypeOf;
    hide CheckName;
    hide CheckNmstrt;
    hide StepLt;
    hide StepExcl;
    hide StepCdata;
    hide StepComment;
    hide StepPiName;
    hide StepPiBody;
    hide StepEnd;
    hide StepStart;
    hide StepRef;
    var hadColon := false;
    var ptr := start;
    while ptr != |text|
      invariant start <= ptr <= |text|
      invariant Scan(enc, AttName(false), text, start) == Scan(enc, AttName(hadColon), text, ptr)
      decreases |text| - ptr
    {
      ScanStep(enc, AttName(hadColon), text, ptr);
      var a := CheckName(enc, text, ptr);
      var t := TypeOf(enc, text[ptr]);
      if a.Go? {
        ptr := a.next;
      } else if a.Stop? {
        return a.result;
      } else if t.Colon? {
        if hadColon {
          return Invalid(ptr);
        }
        hadColon := true;
        ptr := ptr + 1;
        ScanStep(enc, AttColon, text, ptr);
        if ptr == |text| {
          return Partial;
        }
        a := CheckNmstrt(enc, text, ptr);
        if !a.Go? {
          return if a.Stop? then a.result else Invalid(ptr);
        }
        ptr := a.next;
      } else if IsSpace(t) || t.Equals? {
        var m := ScanToEquals(enc, text, ptr, hadColon);
        if m.Done? {
          return m.result;
        }
        hadColon := false;
        m := ScanAttRest(enc, text, m.ptr);
        if m.Done? {
          return m.result;
        }
        ptr := m.ptr;
      } else {
        return Invalid(ptr);
      }
    }
    ScanStep(enc, AttName(hadColon), text, ptr);
    return Partial;
  }

  /** The optional space before '='. */
  method ScanToEquals(enc: Encoding, text: seq<Byte>, start: nat, colon: bool) returns (m: Move)
    requires start < |text| && (IsSpace(TypeOf(enc, text[start])) || TypeOf(enc, text[start]).Equals?)
    ensures ResumesAt(m, AttAfterEquals, enc, AttName(colon), text, start)
  {
    hide Scan;
    hide TypeOf;
    hide StepLt;
    hide StepExcl;
    hide StepCdata;
    hide StepComment;
    hide StepPiName;
    hide StepPiBody;
    hide StepEnd;
    hide StepStart;
    hide StepRef;
    var ptr := start;
    ScanStep(enc, AttName(colon), text, ptr);
    if TypeOf(enc, text[ptr]).Equals? {
      return To(AttAfterEquals, ptr + 1);
    }
    ptr := ptr + 1;
    while ptr != |text|
      invariant start < ptr <= |text|
      invariant Scan(enc, AttName(colon), text, start) == Scan(enc, AttBeforeEquals, text, ptr)
      decreases |text| - ptr
    {
      ScanStep(enc, AttBeforeEquals, text, ptr);
      var t := TypeOf(enc, text[ptr]);
      if t.Equals? {
        return To(AttAfterEquals, ptr + 1);
      } else if !IsSpace(t) {
        return Refuse(ptr);
      }
      ptr := ptr + 1;
    }
    ScanStep(enc, AttBeforeEquals, text, ptr);
    return Done(Partial);
  }

  /** After '<': a start tag, an end tag, or other markup. */
  method ScanLt(enc: Encoding, text: seq<Byte>, start: nat) returns (r: Result)
    requires start <= |text|
    ensures r == Scan(enc, AfterLt, text, start)
  {
    hide Scan;
    hide TypeOf;
    hide CheckName;
    hide CheckNmstrt;
    hide StepCdata;
    hide StepComment;
    hide StepPiName;
    hide StepPiBody;
    hide StepEnd;
    hide StepAttName;
    hide StepAttRest;
    hide StepRef;
    ScanStep(enc, AfterLt, text, start);
    if start == |text| {
      return Partial;
    }
    var a := CheckNmstrt(enc, text, start);
    var t := TypeOf(enc, text[start]);
    if a.Go? {
      r := ScanStartTag(enc, text, a.next);
    } else if a.Stop? {
      r := a.result;
    } else if t.Excl? {
      var ptr := start + 1;
      ScanStep(enc, AfterExcl, text, ptr);
      if ptr == |text| {
        return Partial;
      }
      t := TypeOf(enc, text[ptr]);
      if t.Minus? {
        r := ScanComment(enc, text, ptr + 1);
      } else if t.Lsqb? {
        r := ScanCdataSection(text, ptr + 1, enc);
      } else {
        r := Invalid(ptr);
      }
    } else if t.Quest? {
      r := ScanPi(enc, text, start + 1);
    } else if t.Sol? {
      r := ScanEndTag(enc, text, start + 1);
    } else {
      r := Invalid(start);
    }
  }

  /** The start tag, after the first character of its name. */
  method ScanStartTag(enc: Encoding, text: seq<Byte>, start: nat) returns (r: Result)
    requires start <= |text|
    ensures r == Scan(enc, StartName(false), text, start)
  {
    hide Scan;
    hide TypeOf;
    hide CheckName;
    hide CheckNmstrt;
    hide StepCdata;
    hide StepComment;
    hide StepPiName;
    hide StepPiBody;
    hide StepEnd;
    hide StepAttName;
    hide StepAttRest;
    hide StepRef;
    var hadColon := false;
    var ptr := start;
    while ptr != |text|
      invariant start <= ptr <= |text|
      invariant Scan(enc, StartName(false), text, start) == Scan(enc, StartName(hadColon), text, ptr)
      decreases |text| - ptr
    {
      ScanStep(enc, StartName(hadColon), text, ptr);
      var a := CheckName(enc, text, ptr);
      var t := TypeOf(enc, text[ptr]);
      if a.Go? {
        ptr := a.next;
      } else if a.Stop? {
        return a.result;
      } else if t.Colon? {
        if hadColon {
          return Invalid(ptr);
        }
        hadColon := true;
        ptr := ptr + 1;
        ScanStep(enc, StartColon, text, ptr);
        if ptr == |text| {
          return Partial;
        }
        a := CheckNmstrt(enc, text, ptr);
        if !a.Go? {
          return if a.Stop? then a.result else Invalid(ptr);
        }
        ptr := a.next;
      } else if IsSpace(t) {
        r := ScanStartGap(enc, text, ptr + 1);
        return;
      } else if t.Gt? {
        return Token(StartTagNoAtts, ptr + 1);
      } else if t.Sol? {
        r := ScanSlash(enc, text, ptr + 1, false);
        return;
      } else {
        return Invalid(ptr);
      }
    }
    ScanStep(enc, StartName(hadColon), text, ptr);
    return Partial;
  }

  /** The space behind an element name. */
  method ScanStartGap(enc: Encoding, text: seq<Byte>, start: nat) returns (r: Result)
    requires start <= |text|
    ensures r == Scan(enc, StartGap, text, start)
  {
    hide Scan;
    hide TypeOf;
    hide CheckNmstrt;
    hide StepCdata;
    hide StepComment;
    hide StepPiName;
    hide StepPiBody;
    hide StepEnd;
    hide StepAttName;
    hide StepAttRest;
    hide StepRef;
    var ptr := start;
    while ptr != |text|
      invariant start <= ptr <= |text|
      invariant Scan(enc, StartGap, text, start) == Scan(enc, StartGap, text, ptr)
      decreases |text| - ptr
    {
      ScanStep(enc, StartGap, text, ptr);
      var t := TypeOf(enc, text[ptr]);
      var a := CheckNmstrt(enc, text, ptr);
      if a.Go? {
        r := ScanAtts(enc, text, a.next);
        return;
      } else if a.Stop? {
        return a.result;
      } else if t.Gt? {
        return Token(StartTagNoAtts, ptr + 1);
      } else if t.Sol? {
        r := ScanSlash(enc, text, ptr + 1, false);
        return;
      } else if !IsSpace(t) {
        return Invalid(ptr);
      }
      ptr := ptr + 1;
    }
    ScanStep(enc, StartGap, text, ptr);
    return Partial;
  }

  /** The scanner result is known, or the machine resumes in this state. */
  ghost predicate ResumesAt(m: Move, resumed: State, enc: Encoding, state: State, text: seq<Byte>, ptr: nat)
    requires ptr <= |text| && Placed(state, ptr)
  {
    if m.Done? then
      Scan(enc, state, text, ptr) == m.result
    else
      && m.state == resumed && !resumed.PiName? && ptr < m.ptr <= |text|
      && Scan(enc, state, text, ptr) == Scan(enc, m.state, text, m.ptr)
  }
}
