/** Reading the attributes of a start tag (getAtts), and the values that need no normalising.

    getAtts runs over a tag that the scanner has already accepted, and tells only three states
    apart.  It is compared with the scanner's own states: whatever the scanner accepts, getAtts
    finds the same names and values the scanner went through. */
module StartTags {
  import opened Bytes
  import opened MarkupMachine
  import opened CharRefs
  import opened AttributeTokens
  import opened AttributeValues

  /** One attribute: where its name and its value are, and whether the value can be used as it is. */
  datatype Attribute = Attribute(name: nat, valuePtr: nat, valueEnd: nat, normalized: bool)

  // ----- the attributes the scanner goes through -----

  /** A byte of a value that stays as it is: no reference, and no space but a single inner one. */
  predicate Stays(enc: Encoding, v: seq<Byte>, i: nat)
    requires i < |v|
  {
    var t := TypeOf(enc, v[i]);
    && !t.Amp? && !t.Cr? && !t.Lf?
    && (t.S? ==> 0 < i && v[i] == 0x20 && i + 1 < |v| && v[i + 1] != 0x20)
  }

  predicate IsNormal(enc: Encoding, v: seq<Byte>) {
    forall i | 0 <= i < |v| :: Stays(enc, v, i)
  }

  predicate InGap(s: State) {
    s.StartGap? || s.AttGap?
  }

  /** A step that opens an attribute, its value, or closes it. */
  function NameAfter(s: State, m: State, ptr: nat, name: nat): nat {
    if InGap(s) && m.AttName? then ptr else name
  }

  function ValueAfter(s: State, m: State, next: nat, value: nat): nat {
    if s.AttAfterEquals? && m.AttValue? then next else value
  }

  function ClosedBy(enc: Encoding, m: State, text: seq<Byte>, ptr: nat, name: nat, value: nat): seq<Attribute>
    requires ptr <= |text|
  {
    if m.AttClose? && value <= ptr then [Attribute(name, value, ptr, IsNormal(enc, text[value..ptr]))] else []
  }

  /** The attributes between here and the end of the tag; `name` and `value` belong to the open one. */
  function Collected(enc: Encoding, state: State, text: seq<Byte>, ptr: nat, name: nat, value: nat): seq<Attribute>
    requires ptr <= |text| && Placed(state, ptr)
    decreases |text| - ptr
  {
    StepSettled(enc, state, text, [], ptr);
    var m := Step(enc, state, text, ptr);
    if m.Done? then []
    else
      ClosedBy(enc, m.state, text, ptr, name, value) +
      Collected(enc, m.state, text, m.ptr, NameAfter(state, m.state, ptr, name),
                ValueAfter(state, m.state, m.ptr, value))
  }

  /** A tag from '<' on that the scanner accepts as a start tag. */
  predicate Accepted(enc: Encoding, state: State, text: seq<Byte>, ptr: nat)
    requires ptr <= |text| && Placed(state, ptr)
  {
    var r := Scan(enc, state, text, ptr);
    r.Token? && (r.kind.StartTagWithAtts? || r.kind.StartTagNoAtts? ||
                 r.kind.EmptyElementWithAtts? || r.kind.EmptyElementNoAtts?)
  }

  predicate InTag(s: State) {
    || s.AfterLt? || s.StartName? || s.StartColon? || s.StartGap?
    || s.AttName? || s.AttColon? || s.AttBeforeEquals? || s.AttAfterEquals? || s.AttClose? || s.AttGap?
    || InValueState(s)
  }

  predicate InRefState(s: State) {
    (s.Ref? || s.RefName? || s.NumRef? || s.Digits? || s.HexRef? || s.HexDigits?) && s.container.InValue?
  }

  predicate InValueState(s: State) {
    s.AttValue? || InRefState(s)
  }

  function QuoteOf(s: State): bool
    requires InValueState(s)
  {
    if s.AttValue? then s.quot else s.container.quot
  }

  // ----- getAtts, one character at a time -----

  datatype Mode = Elsewhere | InsideName | InsideValue

  /** The variables of getAtts; `slots` is the array it fills. */
  datatype Reader = Reader(mode: Mode, quot: bool, n: nat, slots: seq<Attribute>)

  function StartName(r: Reader, ptr: nat): Reader {
    if !r.mode.Elsewhere? then r
    else
      var s := if r.n < |r.slots| then r.slots[r.n := r.slots[r.n].(name := ptr, normalized := true)] else r.slots;
      r.(mode := InsideName, slots := s)
  }

  function Quote(r: Reader, ptr: nat, quot: bool): Reader {
    if !r.mode.InsideValue? then
      var s := if r.n < |r.slots| then r.slots[r.n := r.slots[r.n].(valuePtr := ptr + 1)] else r.slots;
      r.(mode := InsideValue, quot := quot, slots := s)
    else if r.quot == quot then
      var s := if r.n < |r.slots| then r.slots[r.n := r.slots[r.n].(valueEnd := ptr)] else r.slots;
      r.(mode := Elsewhere, n := r.n + 1, slots := s)
    else r
  }

  function Denormal(r: Reader): Reader {
    if r.n < |r.slots| then r.(slots := r.slots[r.n := r.slots[r.n].(normalized := false)]) else r
  }

  /** Whether a space in a value has to be touched. */
  predicate Touched(enc: Encoding, slot: Attribute, quot: bool, text: seq<Byte>, ptr: nat)
    requires ptr + 1 < |text|
  {
    ptr == slot.valuePtr || text[ptr] != 0x20 || text[ptr + 1] == 0x20 || IsOpen(TypeOf(enc, text[ptr + 1]), quot)
  }

  function Read(enc: Encoding, r: Reader, text: seq<Byte>, ptr: nat): Reader
    requires ptr + 1 < |text|
  {
    var t := TypeOf(enc, text[ptr]);
    if IsLead(t) || t.NmStrt? || t.Hex? then StartName(r, ptr)
    else if t.Quot? then Quote(r, ptr, true)
    else if t.Apos? then Quote(r, ptr, false)
    else if t.Amp? then Denormal(r)
    else if t.S? then
      if r.mode.InsideName? then r.(mode := Elsewhere)
      else if r.mode.InsideValue? && r.n < |r.slots| && r.slots[r.n].normalized
              && Touched(enc, r.slots[r.n], r.quot, text, ptr) then Denormal(r)
      else r
    else if t.Cr? || t.Lf? then
      if r.mode.InsideName? then r.(mode := Elsewhere) else if r.mode.InsideValue? then Denormal(r) else r
    else r
  }

  // ----- the simulation -----

  /** The value so far contains nothing that makes it differ from its normal form. */
  predicate StaysTo(enc: Encoding, text: seq<Byte>, value: nat, ptr: nat, quot: bool)
    requires ptr < |text|
  {
    forall i | value <= i < ptr :: StaysAt(enc, text, value, i, quot)
  }

  predicate StaysAt(enc: Encoding, text: seq<Byte>, value: nat, i: nat, quot: bool)
    requires i + 1 < |text|
  {
    var t := TypeOf(enc, text[i]);
    && !t.Amp? && !t.Cr? && !t.Lf?
    && (t.S? ==> i != value && text[i] == 0x20 && text[i + 1] != 0x20 && !IsOpen(TypeOf(enc, text[i + 1]), quot))
  }

  predicate HasRef(enc: Encoding, text: seq<Byte>, value: nat, ptr: nat)
    requires ptr <= |text|
  {
    exists i :: value <= i < ptr && TypeOf(enc, text[i]).Amp?
  }

  /** A value without references so far: complete characters, no '<' and no closing quote. */
  predicate PlainTo(enc: Encoding, text: seq<Byte>, value: nat, ptr: nat, quot: bool)
    requires ptr <= |text|
  {
    forall i | value <= i < ptr :: PlainAt(enc, text, i, ptr, quot)
  }

  predicate PlainAt(enc: Encoding, text: seq<Byte>, i: nat, ptr: nat, quot: bool)
    requires i < ptr <= |text|
  {
    && !IsOpen(TypeOf(enc, text[i]), quot) && !TypeOf(enc, text[i]).Lt?
    && i + LeadWidth(text[i]) <= ptr && forall k | i < k < i + LeadWidth(text[i]) :: IsTrail(text[k])
  }

  predicate Started(r: Reader, name: nat) {
    r.n < |r.slots| ==> r.slots[r.n].name == name && r.slots[r.n].normalized
  }

  predicate Filled(done: seq<Attribute>, r: Reader) {
    r.n == |done| && forall k | 0 <= k < |done| && k < |r.slots| :: r.slots[k] == done[k]
  }

  predicate ValueStarted(enc: Encoding, text: seq<Byte>, s: State, ptr: nat, name: nat, value: nat, r: Reader)
    requires ptr < |text| && InValueState(s)
  {
    && r.mode.InsideValue? && r.quot == QuoteOf(s) && value <= ptr
    && (HasRef(enc, text, value, ptr) || (s.AttValue? && PlainTo(enc, text, value, ptr, r.quot)))
    && (r.n < |r.slots| ==>
          var slot := r.slots[r.n];
          slot.name == name && slot.valuePtr == value && slot.normalized == StaysTo(enc, text, value, ptr, r.quot))
  }

  /** The states of the scanner and of getAtts belong together. */
  predicate Together(enc: Encoding, text: seq<Byte>, s: State, ptr: nat, name: nat, value: nat, r: Reader)
    requires ptr < |text| && InTag(s)
  {
    if InValueState(s) then ValueStarted(enc, text, s, ptr, name, value, r)
    else if s.AfterLt? || s.StartName? || s.StartColon? then r.mode.InsideName?
    else if InGap(s) || s.AttClose? then r.mode.Elsewhere?
    else if s.AttBeforeEquals? then r.mode.Elsewhere? && Started(r, name)
    else if s.AttAfterEquals? then !r.mode.InsideValue? && Started(r, name)
    else r.mode.InsideName? && Started(r, name)
  }

  /** What one step of the scanner keeps. */
  predicate StaysTogether(enc: Encoding, text: seq<Byte>, s: State, ptr: nat, name: nat, value: nat,
                          done: seq<Attribute>, r: Reader, m: Move)
    requires ptr + 1 < |text| && m.To?
  {
    m.state.Slash? ||
    (&& InTag(m.state) && m.ptr < |text|
     && Together(enc, text, m.state, m.ptr, NameAfter(s, m.state, ptr, name), ValueAfter(s, m.state, m.ptr, value),
                 Read(enc, r, text, ptr))
     && Filled(done + ClosedBy(enc, m.state, text, ptr, name, value), Read(enc, r, text, ptr)))
  }

  lemma {:induction false} LtStep(enc: Encoding, text: seq<Byte>, s: State, ptr: nat, name: nat, value: nat,
                                  done: seq<Attribute>, r: Reader)
    requires ptr + 1 < |text| && (s.AfterLt?)
    requires Together(enc, text, s, ptr, name, value, r) && Filled(done, r)
    ensures var m := StepLt(enc, text, ptr);
            m.To? && m.ptr < |text| && (InTag(m.state) || m.state.Slash?) ==>
              StaysTogether(enc, text, s, ptr, name, value, done, r, m)
  {
    hide TypeOf;
    hide IsNormal;
    hide MultiByte;
    hide StaysTo;
    assert done + [] == done;
  }

  lemma {:induction false} StartStep(enc: Encoding, text: seq<Byte>, s: State, ptr: nat, name: nat, value: nat,
                                  done: seq<Attribute>, r: Reader)
    requires ptr + 1 < |text| && (s.StartName? || s.StartColon? || s.StartGap?)
    requires Together(enc, text, s, ptr, name, value, r) && Filled(done, r)
    ensures var m := StepStart(enc, s, text, ptr);
            m.To? && m.ptr < |text| && (InTag(m.state) || m.state.Slash?) ==>
              StaysTogether(enc, text, s, ptr, name, value, done, r, m)
  {
    hide TypeOf;
    hide IsNormal;
    hide MultiByte;
    hide StaysTo;
    assert done + [] == done;
  }

  lemma {:induction false} AttNameStep(enc: Encoding, text: seq<Byte>, s: State, ptr: nat, name: nat, value: nat,
                                  done: seq<Attribute>, r: Reader)
    requires ptr + 1 < |text| && (s.AttName? || s.AttColon?)
    requires Together(enc, text, s, ptr, name, value, r) && Filled(done, r)
    ensures var m := StepAttName(enc, s, text, ptr);
            m.To? && m.ptr < |text| && (InTag(m.state) || m.state.Slash?) ==>
              StaysTogether(enc, text, s, ptr, name, value, done, r, m)
  {
    hide TypeOf;
    hide IsNormal;
    hide MultiByte;
    hide StaysTo;
    assert done + [] == done;
  }

  lemma {:induction false} GapStep(enc: Encoding, text: seq<Byte>, s: State, ptr: nat, name: nat, value: nat,
                                  done: seq<Attribute>, r: Reader)
    requires ptr + 1 < |text| && (s.AttClose? || s.AttGap? || s.AttBeforeEquals?)
    requires Together(enc, text, s, ptr, name, value, r) && Filled(done, r)
    ensures var m := StepAttRest(enc, s, text, ptr);
            m.To? && m.ptr < |text| && (InTag(m.state) || m.state.Slash?) ==>
              StaysTogether(enc, text, s, ptr, name, value, done, r, m)
  {
    hide TypeOf;
    hide IsNormal;
    hide MultiByte;
    hide StaysTo;
    assert done + [] == done;
  }

  lemma {:induction false} EqualsStep(enc: Encoding, text: seq<Byte>, s: State, ptr: nat, name: nat, value: nat,
                                  done: seq<Attribute>, r: Reader)
    requires ptr + 1 < |text| && (s.AttAfterEquals?)
    requires Together(enc, text, s, ptr, name, value, r) && Filled(done, r)
    ensures var m := StepAttRest(enc, s, text, ptr);
            m.To? && m.ptr < |text| && (InTag(m.state) || m.state.Slash?) ==>
              StaysTogether(enc, text, s, ptr, name, value, done, r, m)
  {
    hide TypeOf;
    hide IsNormal;
    hide MultiByte;
    assert done + [] == done;
  }

  lemma {:induction false} RefStaysRef(enc: Encoding, text: seq<Byte>, value: nat, ptr: nat, next: nat, quot: bool)
    requires ptr <= next < |text| && HasRef(enc, text, value, ptr)
    ensures HasRef(enc, text, value, next)
    ensures !StaysTo(enc, text, value, ptr, quot) && !StaysTo(enc, text, value, next, quot)
  {
    hide TypeOf;
    var i :| value <= i < ptr && TypeOf(enc, text[i]).Amp?;
    assert !StaysAt(enc, text, value, i, quot);
  }

  lemma {:induction false} RefStep(enc: Encoding, text: seq<Byte>, s: State, ptr: nat, name: nat, value: nat,
                                   done: seq<Attribute>, r: Reader)
    requires ptr + 1 < |text| && InRefState(s)
    requires Together(enc, text, s, ptr, name, value, r) && Filled(done, r)
    ensures var m := StepRef(enc, s, text, ptr);
            m.To? && m.ptr < |text| && (InTag(m.state) || m.state.Slash?) ==>
              StaysTogether(enc, text, s, ptr, name, value, done, r, m)
  {
    hide TypeOf;
    hide IsNormal;
    hide MultiByte;
    hide StaysTo;
    hide HasRef;
    CharSettled(enc, text, [], ptr);
    DigitTypes(enc, text[ptr]);
    var m := StepRef(enc, s, text, ptr);
    if m.To? && m.ptr < |text| {
      RefStaysRef(enc, text, value, ptr, m.ptr, r.quot);
    }
    assert done + [] == done;
  }

  /** A character that the value goes on with. */
  lemma {:induction false} PlainChar(enc: Encoding, text: seq<Byte>, value: nat, ptr: nat, next: nat, quot: bool)
    requires value <= ptr < next < |text| && PlainTo(enc, text, value, ptr, quot)
    requires !IsOpen(TypeOf(enc, text[ptr]), quot) && !TypeOf(enc, text[ptr]).Lt?
    requires next == ptr + LeadWidth(text[ptr]) && forall k | ptr < k < next :: IsTrail(text[k])
    ensures PlainTo(enc, text, value, next, quot)
    ensures StaysTo(enc, text, value, next, quot) <==>
            StaysTo(enc, text, value, ptr, quot) && StaysAt(enc, text, value, ptr, quot)
  {
    hide StaysAt;
    forall i | value <= i < next
      ensures PlainAt(enc, text, i, next, quot)
    {
      if i < ptr {
        assert PlainAt(enc, text, i, ptr, quot);
      } else if i > ptr {
        TrailFacts(enc, text[i]);
      }
    }
    forall i | ptr < i < next
      ensures StaysAt(enc, text, value, i, quot)
    {
      TrailStays(enc, text, value, i, quot);
    }
  }

  lemma {:induction false} TrailFacts(enc: Encoding, b: Byte)
    requires IsTrail(b)
    ensures TypeOf(enc, b).Trail? && LeadWidth(b) == 1
  {
  }

  lemma {:induction false} TrailStays(enc: Encoding, text: seq<Byte>, value: nat, i: nat, quot: bool)
    requires i + 1 < |text| && IsTrail(text[i])
    ensures StaysAt(enc, text, value, i, quot)
  {
    hide TypeOf;
    TrailFacts(enc, text[i]);
  }

  /** The value is complete: what getAtts noted about it is its being normal. */
  lemma {:induction false} CloseValue(enc: Encoding, text: seq<Byte>, value: nat, ptr: nat, quot: bool)
    requires value <= ptr < |text| && IsOpen(TypeOf(enc, text[ptr]), quot)
    requires HasRef(enc, text, value, ptr) || PlainTo(enc, text, value, ptr, quot)
    ensures IsNormal(enc, text[value..ptr]) <==> StaysTo(enc, text, value, ptr, quot)
    ensures IsNormal(enc, text[value..ptr]) ==> IsUsable(enc, text[value..ptr])
  {
    hide TypeOf;
    var v := text[value..ptr];
    if HasRef(enc, text, value, ptr) {
      RefStaysRef(enc, text, value, ptr, ptr, quot);
      var i :| value <= i < ptr && TypeOf(enc, text[i]).Amp?;
      assert v[i - value] == text[i] && !Stays(enc, v, i - value);
    } else {
      forall i | value <= i < ptr
        ensures Stays(enc, v, i - value) <==> StaysAt(enc, text, value, i, quot)
      {
        assert PlainAt(enc, text, i, ptr, quot) && v[i - value] == text[i];
        assert i + 1 < ptr ==> PlainAt(enc, text, i + 1, ptr, quot) && v[i + 1 - value] == text[i + 1];
        SpaceIsNoQuote(enc, text[i + 1], quot);
      }
      assert forall i | 0 <= i < |v| :: Stays(enc, v, i) <==> StaysAt(enc, text, value, value + i, quot);
      PlainIsProper(enc, text, value, ptr, quot);
    }
  }

  lemma {:induction false} SpaceIsNoQuote(enc: Encoding, b: Byte, quot: bool)
    ensures b == 0x20 ==> TypeOf(enc, b).S? && !IsOpen(TypeOf(enc, b), quot)
  {
  }

  /** What the value routines ask of a value: complete characters and no '<'. */
  predicate IsUsable(enc: Encoding, v: seq<Byte>) {
    Proper(enc, v, 0) && NoLt(enc, v)
  }

  lemma {:induction false} PlainIsProper(enc: Encoding, text: seq<Byte>, value: nat, ptr: nat, quot: bool)
    requires value <= ptr <= |text| && PlainTo(enc, text, value, ptr, quot)
    ensures IsUsable(enc, text[value..ptr])
  {
    hide TypeOf;
    var v := text[value..ptr];
    forall i | 0 <= i < |v|
      ensures i + LeadWidth(v[i]) <= |v| && (forall k | i < k < i + LeadWidth(v[i]) :: IsTrail(v[k]))
      ensures !TypeOf(enc, v[i]).Lt?
    {
      assert PlainAt(enc, text, value + i, ptr, quot) && v[i] == text[value + i];
      assert forall k | i < k < i + LeadWidth(v[i]) :: v[k] == text[value + k];
    }
    CompleteIsProper(enc, v, 0);
  }

  /** A character of the value that CheckChar lets through is complete. */
  lemma {:induction false} GoodChar(enc: Encoding, text: seq<Byte>, ptr: nat)
    requires ptr < |text|
    ensures var a, t := CheckChar(enc, text, ptr), TypeOf(enc, text[ptr]);
            && (a.Go? ==> IsLead(t) && a.next == ptr + LeadWidth(text[ptr]) <= |text|
                          && forall k | ptr < k < a.next :: IsTrail(text[k]))
            && (a.NoMatch? ==> LeadWidth(text[ptr]) == 1)
  {
    hide TypeOf;
    Widths(enc, text[ptr]);
    LeadBytes(enc, text[ptr]);
    var n := LeadWidth(text[ptr]);
    if ptr + n <= |text| {
      var p := text[ptr..ptr + n];
      assert forall k | 0 <= k < n :: p[k] == text[ptr + k];
      assert forall k | ptr < k < ptr + n :: text[k] == p[k - ptr];
    }
  }

  lemma {:induction false} LeadBytes(enc: Encoding, b: Byte)
    ensures LeadWidth(b) == 2 <==> TypeOf(enc, b).Lead2?
    ensures LeadWidth(b) == 3 <==> TypeOf(enc, b).Lead3?
    ensures LeadWidth(b) == 4 <==> TypeOf(enc, b).Lead4?
    ensures TypeOf(enc, b).Lead3? ==> b >= 0xe0
  {
  }

  /** The closing quote. */
  lemma {:induction false} ValueCloses(enc: Encoding, text: seq<Byte>, s: State, ptr: nat, name: nat, value: nat,
                                       done: seq<Attribute>, r: Reader)
    requires ptr + 1 < |text| && s.AttValue? && IsOpen(TypeOf(enc, text[ptr]), s.quot)
    requires Together(enc, text, s, ptr, name, value, r) && Filled(done, r)
    ensures StaysTogether(enc, text, s, ptr, name, value, done, r, To(AttClose, ptr + 1))
    ensures ClosedBy(enc, AttClose, text, ptr, name, value) ==
            [Attribute(name, value, ptr, IsNormal(enc, text[value..ptr]))]
    ensures IsNormal(enc, text[value..ptr]) ==> IsUsable(enc, text[value..ptr])
  {
    hide TypeOf;
    hide IsNormal;
    hide StaysTo;
    hide HasRef;
    hide PlainTo;
    CloseValue(enc, text, value, ptr, s.quot);
  }

  /** The start of a reference. */
  lemma {:induction false} ValueRefers(enc: Encoding, text: seq<Byte>, s: State, ptr: nat, name: nat, value: nat,
                                       done: seq<Attribute>, r: Reader)
    requires ptr + 1 < |text| && s.AttValue? && TypeOf(enc, text[ptr]).Amp?
    requires Together(enc, text, s, ptr, name, value, r) && Filled(done, r)
    ensures StaysTogether(enc, text, s, ptr, name, value, done, r, To(Ref(InValue(s.quot)), ptr + 1))
  {
    hide TypeOf;
    hide IsNormal;
    hide StaysTo;
    assert HasRef(enc, text, value, ptr + 1);
    RefStaysRef(enc, text, value, ptr + 1, ptr + 1, s.quot);
    assert done + [] == done;
  }

  /** What a plain character of a value does to the variables of getAtts. */
  lemma {:induction false} ReadPlain(enc: Encoding, text: seq<Byte>, s: State, ptr: nat, value: nat, r: Reader)
    requires ptr + 1 < |text| && s.AttValue? && !IsOpen(TypeOf(enc, text[ptr]), s.quot) && !TypeOf(enc, text[ptr]).Amp?
    requires r.mode.InsideValue? && r.quot == s.quot
    requires r.n < |r.slots| ==> r.slots[r.n].valuePtr == value
    ensures var q := Read(enc, r, text, ptr);
            && q.mode.InsideValue? && q.quot == r.quot && q.n == r.n && |q.slots| == |r.slots|
            && (forall k | 0 <= k < |r.slots| && k != r.n :: q.slots[k] == r.slots[k])
            && (r.n < |r.slots| ==>
                  q.slots[r.n] ==
                  r.slots[r.n].(normalized := r.slots[r.n].normalized && StaysAt(enc, text, value, ptr, r.quot)))
  {
    hide TypeOf;
    SpaceIsNoQuote(enc, text[ptr], s.quot);
  }

  /** The value goes on. */
  lemma {:induction false} ValueGoesOn(enc: Encoding, text: seq<Byte>, s: State, ptr: nat, name: nat, value: nat,
                                       done: seq<Attribute>, r: Reader, next: nat)
    requires ptr < next < |text| && s.AttValue?
    requires !IsOpen(TypeOf(enc, text[ptr]), s.quot) && !TypeOf(enc, text[ptr]).Amp? && !TypeOf(enc, text[ptr]).Lt?
    requires next == ptr + LeadWidth(text[ptr]) && forall k | ptr < k < next :: IsTrail(text[k])
    requires Together(enc, text, s, ptr, name, value, r) && Filled(done, r)
    ensures StaysTogether(enc, text, s, ptr, name, value, done, r, To(s, next))
  {
    hide TypeOf;
    hide IsNormal;
    hide StaysTo;
    hide HasRef;
    hide PlainTo;
    hide StaysAt;
    hide Read;
    ReadPlain(enc, text, s, ptr, value, r);
    if HasRef(enc, text, value, ptr) {
      RefStaysRef(enc, text, value, ptr, next, r.quot);
    } else {
      PlainChar(enc, text, value, ptr, next, r.quot);
    }
    assert done + [] == done;
  }

  lemma {:induction false} ValueStep(enc: Encoding, text: seq<Byte>, s: State, ptr: nat, name: nat, value: nat,
                                     done: seq<Attribute>, r: Reader)
    requires ptr + 1 < |text| && s.AttValue?
    requires Together(enc, text, s, ptr, name, value, r) && Filled(done, r)
    ensures var m := StepAttRest(enc, s, text, ptr);
            m.To? && m.ptr < |text| ==> StaysTogether(enc, text, s, ptr, name, value, done, r, m)
  {
    hide TypeOf;
    hide CheckChar;
    hide StaysTogether;
    hide Together;
    hide Filled;
    var t := TypeOf(enc, text[ptr]);
    GoodChar(enc, text, ptr);
    var m := StepAttRest(enc, s, text, ptr);
    if m.To? && m.ptr < |text| {
      if IsOpen(t, s.quot) {
        ValueCloses(enc, text, s, ptr, name, value, done, r);
      } else if t.Amp? {
        ValueRefers(enc, text, s, ptr, name, value, done, r);
      } else {
        ValueGoesOn(enc, text, s, ptr, name, value, done, r, m.ptr);
      }
    }
  }

  // ----- the whole tag -----

  predicate OtherMarkup(s: State) {
    || s.AfterExcl? || s.CdataOpen? || s.CommentOpen? || s.CommentBody? || s.CommentDash? || s.CommentEnd?
    || s.PiStart? || s.PiName? || s.PiNameQuest? || s.PiBody? || s.PiBodyQuest?
    || s.EndStart? || s.EndName? || s.EndGap?
  }

  predicate IsStartTag(k: Kind) {
    k.StartTagWithAtts? || k.StartTagNoAtts? || k.EmptyElementWithAtts? || k.EmptyElementNoAtts?
  }

  lemma {:induction false} OtherStep(enc: Encoding, s: State, text: seq<Byte>, ptr: nat)
    requires ptr <= |text| && Placed(s, ptr) && OtherMarkup(s)
    ensures var m := Step(enc, s, text, ptr);
            if m.To? then OtherMarkup(m.state) else m.result.Token? ==> !IsStartTag(m.result.kind)
  {
    hide TypeOf;
    hide CheckName;
    hide CheckNmstrt;
    hide CheckChar;
    hide TargetOf;
    hide Mismatch;
    if ptr < |text| {
      CharSettled(enc, text, [], ptr);
    }
  }

  /** Markup that begins with "<!", "<?" or "</" is no start tag. */
  lemma {:induction false} OtherIsNoStartTag(enc: Encoding, s: State, text: seq<Byte>, ptr: nat)
    requires ptr <= |text| && Placed(s, ptr) && OtherMarkup(s)
    ensures !Accepted(enc, s, text, ptr)
    decreases |text| - ptr
  {
    hide Step;
    ScanStep(enc, s, text, ptr);
    OtherStep(enc, s, text, ptr);
    var m := Step(enc, s, text, ptr);
    if m.To? {
      OtherIsNoStartTag(enc, m.state, text, m.ptr);
    }
  }

  /** Inside a tag every step takes one character, and only '>' and '/' end the attributes. */
  predicate OneCharacter(s: State, t: ByteType, ptr: nat, m: Move) {
    if m.To? then
      && m.ptr == ptr + Width(t)
      && (InTag(m.state) || OtherMarkup(m.state) || (m.state.Slash? && t.Sol? && !InValueState(s)))
      && (InTag(m.state) && !InValueState(s) ==> !t.Gt? && !t.Sol?)
    else
      m.result.Token? ==> t.Gt? && !InValueState(s)
  }

  lemma {:induction false} LtWidth(enc: Encoding, s: State, text: seq<Byte>, ptr: nat)
    requires ptr < |text| && (s.AfterLt?)
    ensures OneCharacter(s, TypeOf(enc, text[ptr]), ptr, StepLt(enc, text, ptr))
  {
    hide TypeOf;
    DigitTypes(enc, text[ptr]);
    LetterTypes(enc, text[ptr]);
  }

  lemma {:induction false} StartWidth(enc: Encoding, s: State, text: seq<Byte>, ptr: nat)
    requires ptr < |text| && (s.StartName? || s.StartColon? || s.StartGap?)
    ensures OneCharacter(s, TypeOf(enc, text[ptr]), ptr, StepStart(enc, s, text, ptr))
  {
    hide TypeOf;
    DigitTypes(enc, text[ptr]);
    LetterTypes(enc, text[ptr]);
  }

  lemma {:induction false} AttNameWidth(enc: Encoding, s: State, text: seq<Byte>, ptr: nat)
    requires ptr < |text| && (s.AttName? || s.AttColon?)
    ensures OneCharacter(s, TypeOf(enc, text[ptr]), ptr, StepAttName(enc, s, text, ptr))
  {
    hide TypeOf;
    DigitTypes(enc, text[ptr]);
    LetterTypes(enc, text[ptr]);
  }

  lemma {:induction false} AttRestWidth(enc: Encoding, s: State, text: seq<Byte>, ptr: nat)
    requires ptr < |text| && (s.AttBeforeEquals? || s.AttAfterEquals? || s.AttValue? || s.AttClose? || s.AttGap?)
    ensures OneCharacter(s, TypeOf(enc, text[ptr]), ptr, StepAttRest(enc, s, text, ptr))
  {
    hide TypeOf;
    DigitTypes(enc, text[ptr]);
    LetterTypes(enc, text[ptr]);
  }

  lemma {:induction false} RefWidth(enc: Encoding, s: State, text: seq<Byte>, ptr: nat)
    requires ptr < |text| && (InRefState(s))
    ensures OneCharacter(s, TypeOf(enc, text[ptr]), ptr, StepRef(enc, s, text, ptr))
  {
    hide TypeOf;
    DigitTypes(enc, text[ptr]);
    LetterTypes(enc, text[ptr]);
  }

  lemma {:induction false} TagWidth(enc: Encoding, s: State, text: seq<Byte>, ptr: nat)
    requires ptr < |text| && InTag(s)
    ensures OneCharacter(s, TypeOf(enc, text[ptr]), ptr, Step(enc, s, text, ptr))
  {
    hide TypeOf;
    hide OneCharacter;
    hide StepLt;
    hide StepStart;
    hide StepAttName;
    hide StepAttRest;
    hide StepRef;
    if s.AfterLt? {
      LtWidth(enc, s, text, ptr);
    } else if s.StartName? || s.StartColon? || s.StartGap? {
      StartWidth(enc, s, text, ptr);
    } else if s.AttName? || s.AttColon? {
      AttNameWidth(enc, s, text, ptr);
    } else if !InRefState(s) {
      AttRestWidth(enc, s, text, ptr);
    } else {
      RefWidth(enc, s, text, ptr);
    }
  }

  lemma {:induction false} LetterTypes(enc: Encoding, b: Byte)
    ensures b == 0x3e ==> TypeOf(enc, b).Gt?
    ensures IsLead(TypeOf(enc, b)) ==> Width(TypeOf(enc, b)) > 1
    ensures !IsLead(TypeOf(enc, b)) ==> Width(TypeOf(enc, b)) == 1
  {
  }

  lemma {:induction false} SlashCollectsNothing(enc: Encoding, s: State, text: seq<Byte>, ptr: nat, name: nat,
                                                value: nat)
    requires ptr <= |text| && s.Slash?
    ensures Collected(enc, s, text, ptr, name, value) == []
  {
  }

  /** One step of the scanner and of getAtts, inside an accepted tag. */
  lemma {:induction false} TagStep(enc: Encoding, text: seq<Byte>, s: State, ptr: nat, name: nat, value: nat,
                                   done: seq<Attribute>, r: Reader) returns (m: Move)
    requires ptr < |text| && InTag(s) && Accepted(enc, s, text, ptr)
    requires Together(enc, text, s, ptr, name, value, r) && Filled(done, r)
    ensures m == Step(enc, s, text, ptr)
    ensures EndsTag(TypeOf(enc, text[ptr]), r) ==> Collected(enc, s, text, ptr, name, value) == []
    ensures !EndsTag(TypeOf(enc, text[ptr]), r) ==>
              && m.To? && InTag(m.state) && m.ptr == ptr + Width(TypeOf(enc, text[ptr])) && ptr < m.ptr < |text|
              && Accepted(enc, m.state, text, m.ptr)
              && StaysTogether(enc, text, s, ptr, name, value, done, r, m)
  {
    hide TypeOf;
    hide Step;
    hide StaysTogether;
    hide Filled;
    ScanStep(enc, s, text, ptr);
    TagWidth(enc, s, text, ptr);
    m := Step(enc, s, text, ptr);
    if m.To? {
      AtEndNothing(enc, m.state, text, m.ptr);
      if OtherMarkup(m.state) {
        OtherIsNoStartTag(enc, m.state, text, m.ptr);
      } else if m.state.Slash? {
        SlashCollectsNothing(enc, m.state, text, m.ptr, name, value);
      } else {
        StepTogether(enc, text, s, ptr, name, value, done, r);
      }
    }
  }

  /** Where getAtts returns. */
  predicate EndsTag(t: ByteType, r: Reader) {
    (t.Gt? || t.Sol?) && !r.mode.InsideValue?
  }

  lemma {:induction false} AtEndNothing(enc: Encoding, s: State, text: seq<Byte>, ptr: nat)
    requires ptr <= |text| && Placed(s, ptr)
    ensures ptr == |text| ==> !Accepted(enc, s, text, ptr)
  {
  }

  lemma {:induction false} StepTogether(enc: Encoding, text: seq<Byte>, s: State, ptr: nat, name: nat, value: nat,
                                        done: seq<Attribute>, r: Reader)
    requires ptr + 1 < |text| && InTag(s)
    requires Together(enc, text, s, ptr, name, value, r) && Filled(done, r)
    ensures var m := Step(enc, s, text, ptr);
            m.To? && m.ptr < |text| && (InTag(m.state) || m.state.Slash?) ==>
              StaysTogether(enc, text, s, ptr, name, value, done, r, m)
  {
    hide TypeOf;
    hide Together;
    hide StaysTogether;
    hide Filled;
    hide StepLt;
    hide StepStart;
    hide StepAttName;
    hide StepAttRest;
    hide StepRef;
    if s.AfterLt? {
      LtStep(enc, text, s, ptr, name, value, done, r);
    } else if s.StartName? || s.StartColon? || s.StartGap? {
      StartStep(enc, text, s, ptr, name, value, done, r);
    } else if s.AttName? || s.AttColon? {
      AttNameStep(enc, text, s, ptr, name, value, done, r);
    } else if s.AttClose? || s.AttGap? || s.AttBeforeEquals? {
      GapStep(enc, text, s, ptr, name, value, done, r);
    } else if s.AttAfterEquals? {
      EqualsStep(enc, text, s, ptr, name, value, done, r);
    } else if s.AttValue? {
      ValueStep(enc, text, s, ptr, name, value, done, r);
    } else {
      RefStep(enc, text, s, ptr, name, value, done, r);
    }
  }

  // ----- the loop -----

  /** The switch of getAtts on one character that does not end the tag. */
  method ReadChar(enc: Encoding, text: seq<Byte>, ptr: nat, mode: Mode, quot: bool, n: nat, atts: array<Attribute>)
    returns (newMode: Mode, newQuot: bool, newN: nat)
    requires ptr + 1 < |text|
    modifies atts
    ensures Reader(newMode, newQuot, newN, atts[..]) == Read(enc, Reader(mode, quot, n, old(atts[..])), text, ptr)
  {
    hide TypeOf;
    newMode, newQuot, newN := mode, quot, n;
    var t := TypeOf(enc, text[ptr]);
    if IsLead(t) || t.NmStrt? || t.Hex? {
      if mode.Elsewhere? {
        if n < atts.Length {
          atts[n] := atts[n].(name := ptr, normalized := true);
        }
        newMode := InsideName;
      }
    } else if t.Quot? || t.Apos? {
      if !mode.InsideValue? {
        if n < atts.Length {
          atts[n] := atts[n].(valuePtr := ptr + 1);
        }
        newMode, newQuot := InsideValue, t.Quot?;
      } else if quot == t.Quot? {
        newMode := Elsewhere;
        if n < atts.Length {
          atts[n] := atts[n].(valueEnd := ptr);
        }
        newN := n + 1;
      }
    } else if t.Amp? {
      if n < atts.Length {
        atts[n] := atts[n].(normalized := false);
      }
    } else if t.S? {
      if mode.InsideName? {
        newMode := Elsewhere;
      } else if mode.InsideValue? && n < atts.Length && atts[n].normalized && Touched(enc, atts[n], quot, text, ptr) {
        atts[n] := atts[n].(normalized := false);
      }
    } else if t.Cr? || t.Lf? {
      if mode.InsideName? {
        newMode := Elsewhere;
      } else if mode.InsideValue? && n < atts.Length {
        atts[n] := atts[n].(normalized := false);
      }
    }
  }

  /**
   * getAtts: for a tag the scanner has accepted, the number of its attributes, and as many of them
   * as the array holds: where each name and value is, and whether the value is normal as it is.
   */
  method GetAtts(enc: Encoding, text: seq<Byte>, start: nat, atts: array<Attribute>) returns (nAtts: nat)
    requires start < |text| && Accepted(enc, AfterLt, text, start + 1)
    modifies atts
    ensures var all := Collected(enc, AfterLt, text, start + 1, 0, 0);
            nAtts == |all| && forall k | 0 <= k < |all| && k < atts.Length :: atts[k] == all[k]
  {
    hide StaysTogether;
    hide Collected;
    hide Step;
    hide TypeOf;
    hide Accepted;
    hide Together;
    hide Filled;
    hide Read;
    var ptr := start + 1;
    var mode, quot := InsideName, false;
    nAtts := 0;
    ghost var s, name, value, done := AfterLt, 0, 0, [];
    ghost var all := Collected(enc, AfterLt, text, start + 1, 0, 0);
    AtEndNothing(enc, AfterLt, text, ptr);
    StartsTogether(enc, text, ptr, Reader(mode, quot, nAtts, atts[..]));
    assert all == done + all;
    while true
      invariant ptr < |text| && InTag(s) && Accepted(enc, s, text, ptr)
      invariant Together(enc, text, s, ptr, name, value, Reader(mode, quot, nAtts, atts[..]))
      invariant Filled(done, Reader(mode, quot, nAtts, atts[..]))
      invariant all == done + Collected(enc, s, text, ptr, name, value)
      decreases |text| - ptr
    {
      ghost var r := Reader(mode, quot, nAtts, atts[..]);
      ghost var m := TagStep(enc, text, s, ptr, name, value, done, r);
      var t := TypeOf(enc, text[ptr]);
      if (t.Gt? || t.Sol?) && !mode.InsideValue? {
        FilledIs(done, r);
        assert all == done;
        return;
      }
      mode, quot, nAtts := ReadChar(enc, text, ptr, mode, quot, nAtts, atts);
      name, value, done := Onward(enc, text, s, ptr, name, value, done, all, r, m);
      s := m.state;
      ptr := ptr + Width(t);
    }
  }

  /** What belongs to the open attribute, and what is complete, behind one more character. */
  lemma {:induction false} Onward(enc: Encoding, text: seq<Byte>, s: State, ptr: nat, name: nat, value: nat,
                                  done: seq<Attribute>, all: seq<Attribute>, r: Reader, m: Move)
    returns (newName: nat, newValue: nat, newDone: seq<Attribute>)
    requires ptr + 1 < |text| && InTag(s) && m == Step(enc, s, text, ptr) && m.To?
    requires InTag(m.state) && m.ptr < |text| && StaysTogether(enc, text, s, ptr, name, value, done, r, m)
    requires all == done + Collected(enc, s, text, ptr, name, value)
    ensures Together(enc, text, m.state, m.ptr, newName, newValue, Read(enc, r, text, ptr))
    ensures Filled(newDone, Read(enc, r, text, ptr))
    ensures all == newDone + Collected(enc, m.state, text, m.ptr, newName, newValue)
  {
    hide Step;
    hide Together;
    hide Filled;
    hide Read;
    hide Collected;
    CollectedStep(enc, s, text, ptr, name, value, m);
    newName, newValue := NameAfter(s, m.state, ptr, name), ValueAfter(s, m.state, m.ptr, value);
    newDone := done + ClosedBy(enc, m.state, text, ptr, name, value);
  }

  lemma {:induction false} StartsTogether(enc: Encoding, text: seq<Byte>, ptr: nat, r: Reader)
    requires ptr < |text| && r.mode.InsideName? && r.n == 0
    ensures Together(enc, text, AfterLt, ptr, 0, 0, r) && Filled([], r)
  {
  }

  lemma {:induction false} FilledIs(done: seq<Attribute>, r: Reader)
    requires Filled(done, r)
    ensures r.n == |done| && forall k | 0 <= k < |done| && k < |r.slots| :: r.slots[k] == done[k]
  {
  }

  lemma {:induction false} CollectedStep(enc: Encoding, s: State, text: seq<Byte>, ptr: nat, name: nat, value: nat,
                                         m: Move)
    requires ptr <= |text| && Placed(s, ptr) && m == Step(enc, s, text, ptr) && m.To?
    ensures m.ptr <= |text| && Placed(m.state, m.ptr)
    ensures Collected(enc, s, text, ptr, name, value) ==
            ClosedBy(enc, m.state, text, ptr, name, value) +
            Collected(enc, m.state, text, m.ptr, NameAfter(s, m.state, ptr, name), ValueAfter(s, m.state, m.ptr, value))
  {
    hide Step;
    StepSettled(enc, s, text, [], ptr);
  }

  // ----- values that can be used as they are -----

  /** The value lies in the text; if it is normal, it is also complete and free of '<'. */
  predicate GoodAttribute(enc: Encoding, text: seq<Byte>, a: Attribute) {
    && a.valuePtr <= a.valueEnd <= |text|
    && a.normalized == IsNormal(enc, text[a.valuePtr..a.valueEnd])
    && (a.normalized ==> IsUsable(enc, text[a.valuePtr..a.valueEnd]))
  }

  lemma {:induction false} ClosesValue(enc: Encoding, text: seq<Byte>, s: State, ptr: nat)
    requires ptr < |text| && InTag(s)
    ensures var m := Step(enc, s, text, ptr);
            m.To? && m.state.AttClose? ==> s.AttValue? && IsOpen(TypeOf(enc, text[ptr]), s.quot)
  {
    hide TypeOf;
    hide CheckName;
    hide CheckNmstrt;
    hide CheckChar;
  }

  lemma {:induction false} CollectedIsGood(enc: Encoding, text: seq<Byte>, s: State, ptr: nat, name: nat, value: nat,
                                           r: Reader)
    requires ptr < |text| && InTag(s) && Accepted(enc, s, text, ptr) && Together(enc, text, s, ptr, name, value, r)
    ensures forall a | a in Collected(enc, s, text, ptr, name, value) :: GoodAttribute(enc, text, a)
    decreases |text| - ptr
  {
    hide TypeOf;
    hide Step;
    hide Accepted;
    hide Together;
    hide Read;
    hide GoodAttribute;
    hide Collected;
    var done := seq(r.n, i => Attribute(0, 0, 0, false));
    var clean := r.(slots := if r.n < |r.slots| then done + r.slots[r.n..] else []);
    SlotsBefore(enc, text, s, ptr, name, value, r, done, clean);
    var m := TagStep(enc, text, s, ptr, name, value, done, clean);
    if !EndsTag(TypeOf(enc, text[ptr]), clean) {
      CollectedStep(enc, s, text, ptr, name, value, m);
      var closed := ClosedBy(enc, m.state, text, ptr, name, value);
      if m.state.AttClose? {
        ClosesValue(enc, text, s, ptr);
        ValueCloses(enc, text, s, ptr, name, value, done, clean);
        ClosedIsGood(enc, text, ptr, name, value, closed);
      }
      var q := Read(enc, clean, text, ptr);
      CollectedIsGood(enc, text, m.state, m.ptr, NameAfter(s, m.state, ptr, name),
                      ValueAfter(s, m.state, m.ptr, value), q);
    }
  }

  lemma {:induction false} ClosedIsGood(enc: Encoding, text: seq<Byte>, ptr: nat, name: nat, value: nat,
                                        closed: seq<Attribute>)
    requires ptr < |text|
    requires closed == ClosedBy(enc, AttClose, text, ptr, name, value)
    requires value <= ptr && (IsNormal(enc, text[value..ptr]) ==> IsUsable(enc, text[value..ptr]))
    ensures forall a | a in closed :: GoodAttribute(enc, text, a)
  {
    hide IsNormal;
    hide IsUsable;
  }

  /** What belongs together does not depend on the slots of earlier attributes. */
  lemma {:induction false} SlotsBefore(enc: Encoding, text: seq<Byte>, s: State, ptr: nat, name: nat, value: nat,
                                       r: Reader,
                                       done: seq<Attribute>, clean: Reader)
    requires ptr < |text| && InTag(s) && Together(enc, text, s, ptr, name, value, r) && |done| == r.n
    requires clean == r.(slots := if r.n < |r.slots| then done + r.slots[r.n..] else [])
    ensures Together(enc, text, s, ptr, name, value, clean) && Filled(done, clean)
  {
    hide TypeOf;
    hide StaysTo;
    hide HasRef;
    hide PlainTo;
  }

  /** Every attribute getAtts finds is good. */
  lemma {:induction false} AttributesAreGood(enc: Encoding, text: seq<Byte>, start: nat)
    requires start < |text| && Accepted(enc, AfterLt, text, start + 1)
    ensures forall a | a in Collected(enc, AfterLt, text, start + 1, 0, 0) :: GoodAttribute(enc, text, a)
  {
    hide Accepted;
    hide Collected;
    hide Together;
    var r := Reader(InsideName, false, 0, []);
    AtEndNothing(enc, AfterLt, text, start + 1);
    StartsTogether(enc, text, start + 1, r);
    CollectedIsGood(enc, text, AfterLt, start + 1, 0, 0, r);
  }

  // ----- the fast path -----

  predicate NoLt(enc: Encoding, v: seq<Byte>) {
    forall i | 0 <= i < |v| :: !TypeOf(enc, v[i]).Lt?
  }

  lemma {:induction false} RunIsToken(enc: Encoding, v: seq<Byte>, ptr: nat)
    requires ptr <= |v| && Proper(enc, v, ptr) && NoLt(enc, v)
    ensures PlainRun(enc, v, ptr).Token?
    decreases |v| - ptr
  {
    hide TypeOf;
    hide Proper;
    if ptr < |v| {
      Widths(enc, v[ptr]);
      ProperNext(enc, v, ptr);
      if !Breaks(TypeOf(enc, v[ptr])) {
        RunIsToken(enc, v, ptr + Width(TypeOf(enc, v[ptr])));
      }
    }
  }

  lemma {:induction false} NormalPiece(dtd: Dtd, enc: Encoding, v: seq<Byte>, ptr: nat)
    requires ptr < |v| && IsNormal(enc, v) && NoLt(enc, v) && Proper(enc, v, ptr)
    ensures var p := PieceAt(dtd, enc, v, ptr);
            || (p.Put? && ptr < p.next <= |v| && p.bytes == v[ptr..p.next])
            || (p == Space(ptr + 1) && v[ptr] == 0x20)
  {
    hide TypeOf;
    hide Scan;
    hide PlainRun;
    hide Proper;
    assert Stays(enc, v, ptr);
    RunIsToken(enc, v, ptr);
    PieceAdvances(dtd, enc, v, ptr);
    assert PlainRun(enc, v, ptr).kind.DataChars?;
  }

  lemma {:induction false} NormalExpands(dtd: Dtd, open: set<EntityName>, enc: Encoding, v: seq<Byte>, ptr: nat)
    requires ptr <= |v| && IsNormal(enc, v) && NoLt(enc, v) && Proper(enc, v, ptr) && ProperDtd(dtd)
    ensures Expansion(dtd, open, enc, v, ptr) == Outcome(None, v[ptr..])
    decreases |v| - ptr
  {
    hide PieceAt;
    hide IsNormal;
    hide NoLt;
    hide Proper;
    PieceAdvances(dtd, enc, v, ptr);
    if ptr == |v| {
      EmptyPiece(dtd, enc, v);
    } else {
      NormalPiece(dtd, enc, v, ptr);
      var p := PieceAt(dtd, enc, v, ptr);
      NormalExpands(dtd, open, enc, v, NextOf(p));
      assert v[ptr..] == v[ptr..NextOf(p)] + v[NextOf(p)..];
    }
  }

  lemma {:induction false} EmptyPiece(dtd: Dtd, enc: Encoding, v: seq<Byte>)
    ensures PieceAt(dtd, enc, v, |v|) == End(None)
  {
  }

  /** Collapsing spaces leaves a normal value as it is. */
  lemma {:induction false} NormalSqueezes(enc: Encoding, v: seq<Byte>, k: nat)
    requires k <= |v| && IsNormal(enc, v)
    ensures Squeeze(false, v[..k], v[k..]) == v
    decreases |v| - k
  {
    hide TypeOf;
    if k == |v| {
      assert v[..k] == v;
    } else {
      SpaceIsNoQuote(enc, v[k], true);
      assert Stays(enc, v, k);
      assert v[k..][0] == v[k] && v[k..][1..] == v[k + 1..];
      if k > 0 {
        SpaceIsNoQuote(enc, v[k - 1], true);
        assert Stays(enc, v, k - 1);
        assert v[..k][k - 1] == v[k - 1];
      }
      assert v[..k] + [v[k]] == v[..k + 1];
      NormalSqueezes(enc, v, k + 1);
    }
  }

  /**
   * The fast path refines normalisation: a value getAtts leaves marked as normal is what
   * storeAttributeValue would have stored, for CDATA attributes and for the others.
   */
  lemma {:induction false} NormalIsStored(dtd: Dtd, open: set<EntityName>, enc: Encoding, cdata: bool, v: seq<Byte>)
    requires IsNormal(enc, v) && IsUsable(enc, v) && ProperDtd(dtd)
    ensures Stored(dtd, open, enc, cdata, v) == Outcome(None, v)
  {
    hide TypeOf;
    hide Expansion;
    hide Run;
    NormalExpands(dtd, open, enc, v, 0);
    RunIsExpansion(dtd, open, enc, cdata, v, 0, []);
    assert v[0..] == v;
    if cdata {
      SqueezePlain(true, [], v);
    } else {
      NormalSqueezes(enc, v, 0);
      if |v| > 0 {
        assert Stays(enc, v, |v| - 1);
        SpaceIsNoQuote(enc, v[|v| - 1], true);
      }
    }
  }
}
