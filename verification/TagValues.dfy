/** The values of an accepted tag can be read by the value routines.

    The scanner checks every character of a value but those of the names in references, and reads a
    reference in a value as it reads one in content.  So the value routines, which read the value
    alone and look for its end only between characters, never step over that end. */
module TagValues {
  import opened Bytes
  import opened MarkupMachine
  import opened CharRefs
  import opened AttributeTokens
  import opened AttributeValues
  import opened StartTags

  /** The state of a reference in content that corresponds to one in a value. */
  function InText(s: State): (c: State)
    requires InRefState(s)
  {
    if s.Ref? then Ref(InContent)
    else if s.RefName? then RefName(InContent)
    else if s.NumRef? then NumRef(InContent)
    else if s.Digits? then Digits(InContent)
    else if s.HexRef? then HexRef(InContent)
    else HexDigits(InContent)
  }

  /** What is left to read of the value, up to e, is proper. */
  predicate RestIsProper(enc: Encoding, text: seq<Byte>, s: State, ptr: nat, e: nat)
    requires ptr <= e <= |text| && InValueState(s)
  {
    if s.AttValue? then Proper(enc, text[..e], ptr)
    else
      var r := Scan(enc, InText(s), text[..e], ptr);
      r.Token? ==> Proper(enc, text[..e], r.next)
  }

  /** Wherever the value ends, it is proper if its rest is. */
  ghost predicate SoFarProper(enc: Encoding, text: seq<Byte>, s: State, ptr: nat, value: nat)
    requires value <= ptr <= |text| && InValueState(s)
  {
    forall e: nat | ptr <= e <= |text| && RestIsProper(enc, text, s, ptr, e) :: Proper(enc, text[..e], value)
  }

  /** A step in a reference reads no further than the character it takes. */
  lemma {:induction false} RefStepIsLocal(enc: Encoding, text: seq<Byte>, s: State, ptr: nat, e: nat)
    requires ptr < |text| && InRefState(s)
    requires StepRef(enc, s, text, ptr).To? && StepRef(enc, s, text, ptr).ptr <= e <= |text|
    ensures var m := StepRef(enc, s, text, ptr);
            ptr < m.ptr && InValueState(m.state) &&
            StepRef(enc, InText(s), text[..e], ptr) ==
            if m.state.AttValue? then Done(Token(if s.RefName? then EntityRef else CharRef, m.ptr))
            else To(InText(m.state), m.ptr)
  {
    hide TypeOf;
    CharSettled(enc, text, [], ptr);
    DigitTypes(enc, text[ptr]);
    var short, n := text[..e], Width(TypeOf(enc, text[ptr]));
    if ptr + n <= e {
      assert short[ptr..ptr + n] == text[ptr..ptr + n];
    }
  }

  lemma {:induction false} RefGoesOn(enc: Encoding, text: seq<Byte>, s: State, ptr: nat, e: nat)
    requires ptr < |text| && InRefState(s)
    requires StepRef(enc, s, text, ptr).To? && StepRef(enc, s, text, ptr).ptr <= e <= |text|
    ensures var m := StepRef(enc, s, text, ptr);
            ptr < m.ptr && InValueState(m.state) &&
            (RestIsProper(enc, text, m.state, m.ptr, e) ==> RestIsProper(enc, text, s, ptr, e))
  {
    hide TypeOf;
    hide Scan;
    hide StepRef;
    hide Proper;
    RefStepIsLocal(enc, text, s, ptr, e);
    ScanStepRef(enc, InText(s), text[..e], ptr);
  }

  lemma {:induction false} ValueGoesOnTo(enc: Encoding, text: seq<Byte>, s: State, ptr: nat, e: nat)
    requires ptr < |text| && s.AttValue?
    requires StepAttRest(enc, s, text, ptr).To? && !StepAttRest(enc, s, text, ptr).state.AttClose?
    requires StepAttRest(enc, s, text, ptr).ptr <= e <= |text|
    ensures var m := StepAttRest(enc, s, text, ptr);
            ptr < m.ptr && InValueState(m.state) &&
            (RestIsProper(enc, text, m.state, m.ptr, e) ==> RestIsProper(enc, text, s, ptr, e))
  {
    hide TypeOf;
    hide Scan;
    hide CheckChar;
    GoodChar(enc, text, ptr);
    Widths(enc, text[ptr]);
    var m := StepAttRest(enc, s, text, ptr);
    assert text[..e][ptr] == text[ptr];
    assert forall k | ptr < k < m.ptr :: text[..e][k] == text[k];
  }

  lemma {:induction false} SoFarGoesOn(enc: Encoding, text: seq<Byte>, s: State, ptr: nat, value: nat)
    requires value <= ptr < |text| && InValueState(s) && SoFarProper(enc, text, s, ptr, value)
    ensures var m := Step(enc, s, text, ptr);
            m.To? && !m.state.AttClose? && m.ptr <= |text| ==>
              ptr < m.ptr && InValueState(m.state) && SoFarProper(enc, text, m.state, m.ptr, value)
  {
    hide StepAttRest;
    hide StepRef;
    hide RestIsProper;
    hide Proper;
    var m := Step(enc, s, text, ptr);
    if m.To? && !m.state.AttClose? && m.ptr <= |text| {
      if s.AttValue? {
        ValueGoesOnTo(enc, text, s, ptr, |text|);
      } else {
        RefGoesOn(enc, text, s, ptr, |text|);
      }
      forall e: nat | m.ptr <= e <= |text| && RestIsProper(enc, text, m.state, m.ptr, e)
        ensures Proper(enc, text[..e], value)
      {
        if s.AttValue? {
          ValueGoesOnTo(enc, text, s, ptr, e);
        } else {
          RefGoesOn(enc, text, s, ptr, e);
        }
      }
    }
  }

  /** Being proper does not depend on what stands in front. */
  lemma {:induction false} ProperShifts(enc: Encoding, before: seq<Byte>, text: seq<Byte>, ptr: nat)
    requires ptr <= |text| && Proper(enc, before + text, |before| + ptr)
    ensures Proper(enc, text, ptr)
    decreases |text| - ptr
  {
    hide TypeOf;
    hide Scan;
    if ptr < |text| {
      var all, t := before + text, TypeOf(enc, text[ptr]);
      assert all[|before| + ptr] == text[ptr];
      if t.Amp? {
        ScanShifts(enc, Ref(InContent), before, text, ptr + 1);
        var r := Scan(enc, Ref(InContent), text, ptr + 1);
        if r.Token? {
          ProperShifts(enc, before, text, r.next);
        }
      } else if !t.Lt? {
        assert forall k | ptr < k < ptr + Width(t) :: text[k] == all[|before| + k];
        LetterTypes(enc, text[ptr]);
        ProperShifts(enc, before, text, ptr + Width(t));
      }
    }
  }

  /** At the closing quote nothing is left to read. */
  lemma {:induction false} ClosedIsProper(enc: Encoding, text: seq<Byte>, s: State, ptr: nat, value: nat)
    requires value <= ptr < |text| && s.AttValue? && SoFarProper(enc, text, s, ptr, value)
    ensures Proper(enc, text[value..ptr], 0)
  {
    hide TypeOf;
    hide Scan;
    var short := text[..ptr];
    assert RestIsProper(enc, text, s, ptr, ptr);
    assert short == text[..value] + text[value..ptr];
    ProperShifts(enc, text[..value], text[value..ptr], 0);
  }

  /** A value that goes on, or begins. */
  lemma {:induction false} ValueOpens(enc: Encoding, text: seq<Byte>, s: State, ptr: nat, value: nat)
    requires ptr < |text| && InTag(s)
    requires InValueState(s) ==> value <= ptr && SoFarProper(enc, text, s, ptr, value)
    ensures var m := Step(enc, s, text, ptr);
            m.To? && m.ptr <= |text| && InValueState(m.state) ==>
              var v := ValueAfter(s, m.state, m.ptr, value);
              v <= m.ptr && SoFarProper(enc, text, m.state, m.ptr, v)
  {
    hide Step;
    hide SoFarProper;
    var m := Step(enc, s, text, ptr);
    if InValueState(s) {
      SoFarGoesOn(enc, text, s, ptr, value);
    } else if m.To? && m.ptr <= |text| && InValueState(m.state) {
      OnlyEqualsOpens(enc, text, s, ptr);
      NothingSoFar(enc, text, m.state, m.ptr);
    }
  }

  lemma {:induction false} OnlyEqualsOpens(enc: Encoding, text: seq<Byte>, s: State, ptr: nat)
    requires ptr < |text| && InTag(s) && !InValueState(s)
    ensures var m := Step(enc, s, text, ptr); m.To? && InValueState(m.state) ==> s.AttAfterEquals? && m.state.AttValue?
  {
    hide TypeOf;
    hide CheckName;
    hide CheckNmstrt;
    hide CheckChar;
  }

  lemma {:induction false} NothingSoFar(enc: Encoding, text: seq<Byte>, s: State, ptr: nat)
    requires ptr <= |text| && s.AttValue?
    ensures SoFarProper(enc, text, s, ptr, ptr)
  {
    hide Proper;
  }

  /** Every value that is still to come is proper, if the open one is so far. */
  lemma {:induction false} CollectedIsProper(enc: Encoding, text: seq<Byte>, s: State, ptr: nat, name: nat, value: nat)
    requires ptr <= |text| && InTag(s) && Accepted(enc, s, text, ptr)
    requires InValueState(s) ==> value <= ptr && SoFarProper(enc, text, s, ptr, value)
    ensures forall a | a in Collected(enc, s, text, ptr, name, value) ::
              a.valuePtr <= a.valueEnd <= |text| && Proper(enc, text[a.valuePtr..a.valueEnd], 0)
    decreases |text| - ptr
  {
    hide TypeOf;
    hide Step;
    hide Scan;
    hide Proper;
    hide SoFarProper;
    AtEndNothing(enc, s, text, ptr);
    ScanStep(enc, s, text, ptr);
    TagWidth(enc, s, text, ptr);
    var m := Step(enc, s, text, ptr);
    if m.To? {
      CollectedStep(enc, s, text, ptr, name, value, m);
      hide Collected;
      var newName, newValue := NameAfter(s, m.state, ptr, name), ValueAfter(s, m.state, m.ptr, value);
      if m.state.AttClose? {
        ClosesValue(enc, text, s, ptr);
        ClosedIsProper(enc, text, s, ptr, value);
      }
      if m.state.Slash? {
        SlashCollectsNothing(enc, m.state, text, m.ptr, newName, newValue);
      } else if OtherMarkup(m.state) {
        OtherIsNoStartTag(enc, m.state, text, m.ptr);
      } else {
        ValueOpens(enc, text, s, ptr, value);
        CollectedIsProper(enc, text, m.state, m.ptr, newName, newValue);
      }
    }
  }

  /** Every value getAtts finds in an accepted tag can be read by the value routines. */
  lemma {:induction false} ValuesAreProper(enc: Encoding, text: seq<Byte>, start: nat)
    requires start < |text| && Accepted(enc, AfterLt, text, start + 1)
    ensures forall a | a in Collected(enc, AfterLt, text, start + 1, 0, 0) ::
              a.valuePtr <= a.valueEnd <= |text| && Proper(enc, text[a.valuePtr..a.valueEnd], 0)
  {
    hide Accepted;
    hide Collected;
    CollectedIsProper(enc, text, AfterLt, start + 1, 0, 0);
  }

  /**
   * What storeAtts uses as the value of an attribute, whether it takes the fast path or not, is the
   * value of section 3.3.3 of XML 1.0, for every attribute of every tag the scanner accepts.
   */
  lemma {:induction false} ValueIsNormalised(dtd: Dtd, open: set<EntityName>, enc: Encoding, cdata: bool,
                                             text: seq<Byte>, start: nat, a: Attribute)
    requires ProperDtd(dtd) && start < |text| && Accepted(enc, AfterLt, text, start + 1)
    requires a in Collected(enc, AfterLt, text, start + 1, 0, 0)
    ensures a.valuePtr <= a.valueEnd <= |text| && Proper(enc, text[a.valuePtr..a.valueEnd], 0)
    ensures var v := text[a.valuePtr..a.valueEnd];
            var used, e := if a.normalized then Outcome(None, v) else Stored(dtd, open, enc, cdata, v),
                           Expansion(dtd, open, enc, v, 0);
            && used.error == e.error
            && (e.error.None? ==> used.value == if cdata then e.value else Joined(Words(e.value)))
  {
    hide Accepted;
    hide Collected;
    hide Proper;
    hide Stored;
    hide Expansion;
    hide IsNormal;
    ValuesAreProper(enc, text, start);
    AttributesAreGood(enc, text, start);
    assert GoodAttribute(enc, text, a);
    var v := text[a.valuePtr..a.valueEnd];
    StoredIsNormalised(dtd, open, enc, cdata, v);
    if a.normalized {
      NormalIsStored(dtd, open, enc, cdata, v);
    }
  }
}
