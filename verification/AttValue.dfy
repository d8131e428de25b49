/** Attribute values: tokens, entity expansion and normalisation (xmltok_impl.c, xmlparse.c).

    `Expansion` is the value of a CDATA attribute, by recursion over the entities that are not
    open yet; the program's value, with spaces collapsed on the way, is compared with it. */
module AttributeTokens {
  import opened Bytes
  import opened MarkupMachine
  import opened Scanners
  import opened CharRefs

  /** The width of the character a byte begins. */
  function LeadWidth(b: Byte): nat {
    if b < 0xc0 then 1 else if b < 0xe0 then 2 else if b < 0xf0 then 3 else if b < 0xf5 then 4 else 1
  }

  /**
   * Outside references every character from here on is complete.  The name in a reference need not
   * be: the naming tables look at no more than the low bits of the bytes behind the first.
   */
  predicate Proper(enc: Encoding, text: seq<Byte>, ptr: nat)
    requires ptr <= |text|
    decreases |text| - ptr
  {
    if ptr == |text| then true
    else
      var t := TypeOf(enc, text[ptr]);
      if t.Lt? then true
      else if t.Amp? then
        var r := Scan(enc, Ref(InContent), text, ptr + 1);
        r.Token? ==> Proper(enc, text, r.next)
      else
        && ptr + Width(t) <= |text| && (forall k | ptr < k < ptr + Width(t) :: IsTrail(text[k]))
        && Proper(enc, text, ptr + Width(t))
  }

  predicate Breaks(t: ByteType) {
    t.Amp? || t.Lt? || t.Lf? || t.Cr? || t.S?
  }

  lemma {:induction false} Widths(enc: Encoding, b: Byte)
    ensures Width(TypeOf(enc, b)) == LeadWidth(b)
    ensures IsLead(TypeOf(enc, b)) <==> LeadWidth(b) > 1
    ensures b == 0x20 ==> TypeOf(enc, b).S?
  {
  }

  /** Every character is complete, those in references included, as in literals of declarations. */
  predicate Complete(text: seq<Byte>) {
    forall i | 0 <= i < |text| ::
      i + LeadWidth(text[i]) <= |text| && forall k | i < k < i + LeadWidth(text[i]) :: IsTrail(text[k])
  }

  lemma {:induction false} CompleteIsProper(enc: Encoding, text: seq<Byte>, ptr: nat)
    requires ptr <= |text| && Complete(text)
    ensures Proper(enc, text, ptr)
    decreases |text| - ptr
  {
    hide TypeOf;
    hide Scan;
    if ptr < |text| {
      Widths(enc, text[ptr]);
      var t := TypeOf(enc, text[ptr]);
      if !t.Amp? {
        CompleteIsProper(enc, text, ptr + Width(t));
      } else if Scan(enc, Ref(InContent), text, ptr + 1).Token? {
        CompleteIsProper(enc, text, Scan(enc, Ref(InContent), text, ptr + 1).next);
      }
    }
  }

  /** The end of a run of plain characters, or the '<' that makes it an error. */
  function PlainRun(enc: Encoding, text: seq<Byte>, ptr: nat): (r: Result)
    requires ptr <= |text| && Proper(enc, text, ptr)
    ensures r.Token? || r.Invalid?
    ensures r.Token? ==> r.kind.DataChars? && ptr <= r.next <= |text|
    ensures r.Token? && ptr < |text| && !Breaks(TypeOf(enc, text[ptr])) ==> ptr < r.next
    decreases |text| - ptr
  {
    if ptr == |text| then Token(DataChars, ptr)
    else
      var t := TypeOf(enc, text[ptr]);
      if t.Lt? then Invalid(ptr)
      else if Breaks(t) then Token(DataChars, ptr)
      else
        Widths(enc, text[ptr]);
        PlainRun(enc, text, ptr + Width(t))
  }

  /** attributeValueTok */
  function Tok(enc: Encoding, text: seq<Byte>, ptr: nat): (r: Result)
    requires ptr <= |text| && Proper(enc, text, ptr)
    ensures r.Token? ==> ptr < r.next <= |text|
  {
    if ptr == |text| then NoToken
    else
      var t := TypeOf(enc, text[ptr]);
      if t.Amp? then Scan(enc, Ref(InContent), text, ptr + 1)
      else if t.Lf? then Token(DataNewline, ptr + 1)
      else if t.Cr? then
        if ptr + 1 == |text| then TrailingCr
        else Token(DataNewline, if TypeOf(enc, text[ptr + 1]).Lf? then ptr + 2 else ptr + 1)
      else if t.S? then Token(AttributeValueS, ptr + 1)
      else PlainRun(enc, text, ptr)
  }

  lemma {:induction false} ProperNext(enc: Encoding, text: seq<Byte>, ptr: nat)
    requires ptr < |text| && Proper(enc, text, ptr)
    ensures var t := TypeOf(enc, text[ptr]);
            !t.Amp? && !t.Lt? ==> ptr + Width(t) <= |text| && Proper(enc, text, ptr + Width(t))
  {
    hide TypeOf;
    hide Scan;
  }

  lemma {:induction false} RunStaysProper(enc: Encoding, text: seq<Byte>, ptr: nat)
    requires ptr <= |text| && Proper(enc, text, ptr)
    ensures var r := PlainRun(enc, text, ptr); r.Token? ==> Proper(enc, text, r.next)
    decreases |text| - ptr
  {
    hide TypeOf;
    hide Proper;
    if ptr < |text| && !Breaks(TypeOf(enc, text[ptr])) {
      ProperNext(enc, text, ptr);
      Widths(enc, text[ptr]);
      RunStaysProper(enc, text, ptr + Width(TypeOf(enc, text[ptr])));
    }
  }

  /** Behind a token the text is as good as in front of it. */
  lemma {:induction false} TokStaysProper(enc: Encoding, text: seq<Byte>, ptr: nat)
    requires ptr <= |text| && Proper(enc, text, ptr)
    ensures var r := Tok(enc, text, ptr); r.Token? ==> Proper(enc, text, r.next)
  {
    hide TypeOf;
    hide Scan;
    hide PlainRun;
    RunStaysProper(enc, text, ptr);
    if ptr < |text| {
      ProperNext(enc, text, ptr);
      if ptr + 1 < |text| && TypeOf(enc, text[ptr]).Cr? {
        ProperNext(enc, text, ptr + 1);
      }
    }
  }

  method AttributeValueTok(enc: Encoding, text: seq<Byte>, start: nat) returns (r: Result)
    requires start <= |text| && Proper(enc, text, start)
    ensures r == Tok(enc, text, start)
  {
    hide TypeOf;
    hide Scan;
    if start == |text| {
      return NoToken;
    }
    var ptr := start;
    while ptr != |text|
      invariant start <= ptr <= |text| && Proper(enc, text, ptr)
      invariant start < ptr ==> Tok(enc, text, start) == PlainRun(enc, text, ptr)
      decreases |text| - ptr
    {
      var t := TypeOf(enc, text[ptr]);
      Widths(enc, text[ptr]);
      if IsLead(t) {
        ptr := ptr + Width(t);
      } else if t.Amp? {
        if ptr == start {
          var m := ScanRef(enc, text, ptr + 1, InContent);
          return m.result;
        }
        return Token(DataChars, ptr);
      } else if t.Lt? {
        return Invalid(ptr);
      } else if t.Lf? {
        return if ptr == start then Token(DataNewline, ptr + 1) else Token(DataChars, ptr);
      } else if t.Cr? {
        if ptr == start {
          ptr := ptr + 1;
          if ptr == |text| {
            return TrailingCr;
          }
          if TypeOf(enc, text[ptr]).Lf? {
            ptr := ptr + 1;
          }
          return Token(DataNewline, ptr);
        }
        return Token(DataChars, ptr);
      } else if t.S? {
        return if ptr == start then Token(AttributeValueS, ptr + 1) else Token(DataChars, ptr);
      } else {
        ptr := ptr + 1;
      }
    }
    return Token(DataChars, ptr);
  }

  /** The plain characters of a run contain no space. */
  lemma {:induction false} RunHasNoSpace(enc: Encoding, text: seq<Byte>, ptr: nat)
    requires ptr <= |text| && Proper(enc, text, ptr)
    ensures var r := PlainRun(enc, text, ptr); r.Token? ==> forall i | ptr <= i < r.next :: text[i] != 0x20
    decreases |text| - ptr
  {
    hide TypeOf;
    if ptr < |text| {
      var t := TypeOf(enc, text[ptr]);
      Widths(enc, text[ptr]);
      if !Breaks(t) {
        RunHasNoSpace(enc, text, ptr + Width(t));
      }
    }
  }

  /** What a reference scanner returns. */
  lemma {:induction false} RefKinds(enc: Encoding, text: seq<Byte>, ptr: nat)
    requires ptr < |text|
    ensures var r := Scan(enc, Ref(InContent), text, ptr + 1);
            r.Token? ==> || (r.kind.CharRef? && IsCharRef(text, ptr, r.next))
                         || (r.kind.EntityRef? && ptr + 2 < r.next <= |text|)
  {
    hide TypeOf;
    hide Scan;
    hide Step;
    hide CheckNmstrt;
    hide IsCharRef;
    ScanStepRef(enc, Ref(InContent), text, ptr + 1);
    if ptr + 1 < |text| {
      CharSettled(enc, text, [], ptr + 1);
      DigitTypes(enc, text[ptr + 1]);
      var a := CheckNmstrt(enc, text, ptr + 1);
      if a.Go? {
        NameScanned(enc, text, a.next);
      } else if text[ptr + 1] == NUM {
        NumberScanned(enc, text, ptr);
      }
    }
  }

  /** The five names every document knows. */
  function Predefined(name: seq<Byte>): (ch: Byte)
    ensures ch != 0x20
  {
    if name == [0x6c, 0x74] then 0x3c
    else if name == [0x67, 0x74] then 0x3e
    else if name == [0x61, 0x6d, 0x70] then 0x26
    else if name == [0x71, 0x75, 0x6f, 0x74] then 0x22
    else if name == [0x61, 0x70, 0x6f, 0x73] then 0x27
    else 0
  }

  /** predefinedEntityName: a switch over the length and the letters. */
  method PredefinedEntityName(text: seq<Byte>, start: nat, end: nat) returns (ch: Byte)
    requires start <= end <= |text|
    ensures ch == Predefined(text[start..end])
  {
    ghost var name := text[start..end];
    var n := end - start;
    if n == 2 {
      assert name == [text[start], text[start + 1]];
      if text[start + 1] == 0x74 {
        if text[start] == 0x6c {
          return 0x3c;
        } else if text[start] == 0x67 {
          return 0x3e;
        }
      }
    } else if n == 3 {
      assert name == [text[start], text[start + 1], text[start + 2]];
      if text[start] == 0x61 && text[start + 1] == 0x6d && text[start + 2] == 0x70 {
        return 0x26;
      }
    } else if n == 4 {
      assert name == [text[start], text[start + 1], text[start + 2], text[start + 3]];
      if text[start] == 0x71 {
        if text[start + 1] == 0x75 && text[start + 2] == 0x6f && text[start + 3] == 0x74 {
          return 0x22;
        }
      } else if text[start] == 0x61 {
        if text[start + 1] == 0x70 && text[start + 2] == 0x6f && text[start + 3] == 0x73 {
          return 0x27;
        }
      }
    }
    return 0;
  }
}

/** The meaning of attribute values. */
module AttributeValues {
  import opened Bytes
  import opened MarkupMachine
  import opened Characters
  import opened CharRefs
  import opened AttributeTokens

  type EntityName = seq<Byte>

  datatype Maybe<T> = Nothing | Just(value: T)

  /** A declared general entity: its replacement text if it has one, and how it was declared. */
  datatype Decl = Decl(isInternal: bool, notation: bool, text: Maybe<seq<Byte>>)

  /** The declarations, whether references must be declared, and the encoding of stored text. */
  datatype Dtd = Dtd(entities: map<EntityName, Decl>, check: bool, internal: Encoding)

  predicate ProperDtd(dtd: Dtd) {
    forall n | n in dtd.entities :: dtd.entities[n].text.Just? ==> Proper(dtd.internal, dtd.entities[n].text.value, 0)
  }

  datatype Error =
    | None | InvalidToken | BadCharRef | UndefinedEntity | EntityDeclaredInPE
    | RecursiveEntityRef | BinaryEntityRef | ExternalEntityRef | UnexpectedState

  /** What the next token of a value asks for. */
  datatype Piece =
    | End(error: Error)
    | Put(bytes: seq<Byte>, next: nat)
    | Space(next: nat)
    | Skip(next: nat)
    | Reference(name: EntityName, next: nat)

  function CharPiece(text: seq<Byte>, ptr: nat, next: nat): Piece
    requires IsCharRef(text, ptr, next)
  {
    var n := NumberOf(text, ptr, next);
    if !IsXmlChar(n) then End(BadCharRef)
    else if n == 0x20 then Space(next)
    else
      CheckIsChar(n);
      Put(Utf8(n), next)
  }

  function EntityPiece(dtd: Dtd, name: EntityName, next: nat): Piece {
    if Predefined(name) != 0 then Put([Predefined(name)], next)
    else if name !in dtd.entities then (if dtd.check then End(UndefinedEntity) else Skip(next))
    else if dtd.check && !dtd.entities[name].isInternal then End(EntityDeclaredInPE)
    else Reference(name, next)
  }

  function PieceAt(dtd: Dtd, enc: Encoding, text: seq<Byte>, ptr: nat): Piece
    requires ptr <= |text| && Proper(enc, text, ptr)
  {
    var r := Tok(enc, text, ptr);
    if r.NoToken? then End(None)
    else if r.Invalid? || r.Partial? then End(InvalidToken)
    else if r.TrailingCr? then Space(ptr + 1)
    else if !r.Token? then End(UnexpectedState)
    else if r.kind.DataChars? then Put(text[ptr..r.next], r.next)
    else if r.kind.DataNewline? || r.kind.AttributeValueS? then Space(r.next)
    else if r.kind.CharRef? && IsCharRef(text, ptr, r.next) then CharPiece(text, ptr, r.next)
    else if ptr + 2 < r.next then EntityPiece(dtd, text[ptr + 1..r.next - 1], r.next)
    else End(UnexpectedState)
  }

  function NextOf(p: Piece): nat
    requires !p.End?
  {
    p.next
  }

  lemma {:induction false} PieceAdvances(dtd: Dtd, enc: Encoding, text: seq<Byte>, ptr: nat)
    requires ptr <= |text| && Proper(enc, text, ptr)
    ensures var p := PieceAt(dtd, enc, text, ptr);
            && (!p.End? ==> ptr < NextOf(p) <= |text| && Proper(enc, text, NextOf(p)))
            && (p.Put? ==> 0x20 !in p.bytes)
            && (p.Reference? ==> p.name in dtd.entities)
            && (p == End(None) ==> ptr == |text|)
            && (p.End? ==> !p.error.RecursiveEntityRef?)
  {
    hide TypeOf;
    hide Scan;
    hide IsCharRef;
    hide NumberOf;
    hide Utf8;
    hide Proper;
    TokStaysProper(enc, text, ptr);
    var r := Tok(enc, text, ptr);
    if r.TrailingCr? {
      ProperNext(enc, text, ptr);
    }
    if r.Token? {
      if r.kind.DataChars? {
        if !TypeOf(enc, text[ptr]).Amp? {
          RunHasNoSpace(enc, text, ptr);
        } else {
          RefKinds(enc, text, ptr);
        }
      } else if r.kind.CharRef? && IsCharRef(text, ptr, r.next) {
        var n := NumberOf(text, ptr, r.next);
        if IsXmlChar(n) && n != 0x20 {
          CheckIsChar(n);
          EncodedHasNoSpace(n);
        }
      }
    }
  }

  lemma {:induction false} EncodedHasNoSpace(c: Char)
    requires c != 0x20
    ensures 0x20 !in Utf8(c)
  {
  }

  // ----- values -----

  datatype Outcome = Outcome(error: Error, value: seq<Byte>)

  function Prepend(bytes: seq<Byte>, o: Outcome): Outcome {
    Outcome(o.error, bytes + o.value)
  }

  /** Why an entity cannot be expanded. */
  function Refusal(dtd: Dtd, open: set<EntityName>, name: EntityName): Error
    requires name in dtd.entities
  {
    if name in open then RecursiveEntityRef
    else if dtd.entities[name].notation then BinaryEntityRef
    else if dtd.entities[name].text.Nothing? then ExternalEntityRef
    else None
  }

  /** The value of a CDATA attribute; what was read before an error is kept with the error. */
  function Expansion(dtd: Dtd, open: set<EntityName>, enc: Encoding, text: seq<Byte>, ptr: nat): Outcome
    requires ptr <= |text| && Proper(enc, text, ptr) && ProperDtd(dtd)
    decreases dtd.entities.Keys - open, |text| - ptr
  {
    PieceAdvances(dtd, enc, text, ptr);
    var p := PieceAt(dtd, enc, text, ptr);
    if p.End? then Outcome(p.error, [])
    else if p.Put? then Prepend(p.bytes, Expansion(dtd, open, enc, text, p.next))
    else if p.Space? then Prepend([0x20], Expansion(dtd, open, enc, text, p.next))
    else if p.Skip? then Expansion(dtd, open, enc, text, p.next)
    else if !Refusal(dtd, open, p.name).None? then Outcome(Refusal(dtd, open, p.name), [])
    else
      var inner := Expansion(dtd, open + {p.name}, dtd.internal, dtd.entities[p.name].text.value, 0);
      if inner.error.None? then Prepend(inner.value, Expansion(dtd, open, enc, text, p.next)) else inner
  }

  /** Appends one space, unless spaces are collapsed and it would lead or repeat. */
  function Blank(cdata: bool, out: seq<Byte>): seq<Byte> {
    if !cdata && (|out| == 0 || out[|out| - 1] == 0x20) then out else out + [0x20]
  }

  /** appendAttributeValue: the pool's current string grows, spaces collapse on the way. */
  function Run(dtd: Dtd, open: set<EntityName>, enc: Encoding, cdata: bool, text: seq<Byte>, ptr: nat,
               out: seq<Byte>): Outcome
    requires ptr <= |text| && Proper(enc, text, ptr) && ProperDtd(dtd)
    decreases dtd.entities.Keys - open, |text| - ptr
  {
    PieceAdvances(dtd, enc, text, ptr);
    var p := PieceAt(dtd, enc, text, ptr);
    if p.End? then Outcome(p.error, out)
    else if p.Put? then Run(dtd, open, enc, cdata, text, p.next, out + p.bytes)
    else if p.Space? then Run(dtd, open, enc, cdata, text, p.next, Blank(cdata, out))
    else if p.Skip? then Run(dtd, open, enc, cdata, text, p.next, out)
    else if !Refusal(dtd, open, p.name).None? then Outcome(Refusal(dtd, open, p.name), out)
    else
      var inner := Run(dtd, open + {p.name}, dtd.internal, cdata, dtd.entities[p.name].text.value, 0, out);
      if inner.error.None? then Run(dtd, open, enc, cdata, text, p.next, inner.value) else inner
  }

  /** Collapses spaces while appending. */
  function Squeeze(cdata: bool, out: seq<Byte>, s: seq<Byte>): seq<Byte>
    decreases |s|
  {
    if |s| == 0 then out
    else Squeeze(cdata, if s[0] == 0x20 then Blank(cdata, out) else out + [s[0]], s[1..])
  }

  lemma {:induction false} SqueezeAppends(cdata: bool, out: seq<Byte>, a: seq<Byte>, b: seq<Byte>)
    ensures Squeeze(cdata, out, a + b) == Squeeze(cdata, Squeeze(cdata, out, a), b)
    decreases |a|
  {
    if |a| == 0 {
      assert a + b == b;
    } else {
      assert (a + b)[0] == a[0] && (a + b)[1..] == a[1..] + b;
      SqueezeAppends(cdata, if a[0] == 0x20 then Blank(cdata, out) else out + [a[0]], a[1..], b);
    }
  }

  lemma {:induction false} SqueezePlain(cdata: bool, out: seq<Byte>, s: seq<Byte>)
    requires 0x20 !in s || cdata
    ensures Squeeze(cdata, out, s) == out + s
    decreases |s|
  {
    if |s| > 0 {
      SqueezePlain(cdata, out + [s[0]], s[1..]);
      assert out + [s[0]] + s[1..] == out + s;
    } else {
      assert out + s == out;
    }
  }

  /** The program's result is the expansion, appended with spaces collapsed. */
  lemma {:induction false} RunIsExpansion(dtd: Dtd, open: set<EntityName>, enc: Encoding, cdata: bool,
                                          text: seq<Byte>, ptr: nat, out: seq<Byte>)
    requires ptr <= |text| && Proper(enc, text, ptr) && ProperDtd(dtd)
    ensures var e := Expansion(dtd, open, enc, text, ptr);
            Run(dtd, open, enc, cdata, text, ptr, out) == Outcome(e.error, Squeeze(cdata, out, e.value))
    decreases dtd.entities.Keys - open, |text| - ptr
  {
    hide PieceAt;
    hide Squeeze;
    hide Proper;
    PieceAdvances(dtd, enc, text, ptr);
    var p := PieceAt(dtd, enc, text, ptr);
    if p.End? {
      SqueezePlain(cdata, out, []);
    } else if p.Put? {
      var rest := Expansion(dtd, open, enc, text, p.next);
      RunIsExpansion(dtd, open, enc, cdata, text, p.next, out + p.bytes);
      SqueezePlain(cdata, out, p.bytes);
      SqueezeAppends(cdata, out, p.bytes, rest.value);
    } else if p.Space? {
      var rest := Expansion(dtd, open, enc, text, p.next);
      RunIsExpansion(dtd, open, enc, cdata, text, p.next, Blank(cdata, out));
      SqueezeSpace(cdata, out);
      SqueezeAppends(cdata, out, [0x20], rest.value);
    } else if p.Skip? {
      RunIsExpansion(dtd, open, enc, cdata, text, p.next, out);
    } else if !Refusal(dtd, open, p.name).None? {
      SqueezePlain(cdata, out, []);
    } else {
      var body := dtd.entities[p.name].text.value;
      var inner := Expansion(dtd, open + {p.name}, dtd.internal, body, 0);
      RunIsExpansion(dtd, open + {p.name}, dtd.internal, cdata, body, 0, out);
      if inner.error.None? {
        var rest := Expansion(dtd, open, enc, text, p.next);
        RunIsExpansion(dtd, open, enc, cdata, text, p.next, Squeeze(cdata, out, inner.value));
        SqueezeAppends(cdata, out, inner.value, rest.value);
      }
    }
  }

  lemma {:induction false} SqueezeSpace(cdata: bool, out: seq<Byte>)
    ensures Squeeze(cdata, out, [0x20]) == Blank(cdata, out)
  {
    assert Squeeze(cdata, Blank(cdata, out), []) == Blank(cdata, out);
  }

  // ----- normalisation (section 3.3.3 of XML 1.0) -----

  /** The words of a value: the maximal runs without a space. */
  function Words(s: seq<Byte>): seq<seq<Byte>>
    decreases |s|
  {
    if |s| == 0 then []
    else if s[0] == 0x20 then Words(s[1..])
    else
      var k := WordEnd(s);
      [s[..k]] + Words(s[k..])
  }

  function WordEnd(s: seq<Byte>): (k: nat)
    ensures k <= |s| && 0x20 !in s[..k]
    ensures k < |s| ==> s[k] == 0x20
    ensures |s| > 0 && s[0] != 0x20 ==> k > 0
    decreases |s|
  {
    if |s| == 0 || s[0] == 0x20 then 0
    else
      var k := WordEnd(s[1..]);
      assert s[..k + 1] == [s[0]] + s[1..][..k];
      1 + k
  }

  /** The words, one space between each two. */
  function Joined(words: seq<seq<Byte>>): seq<Byte> {
    if |words| == 0 then [] else if |words| == 1 then words[0] else words[0] + [0x20] + Joined(words[1..])
  }

  /** poolChop, when the value ends in a space. */
  function Chop(s: seq<Byte>): seq<Byte> {
    if |s| > 0 && s[|s| - 1] == 0x20 then s[..|s| - 1] else s
  }

  predicate AtStart(out: seq<Byte>) {
    |out| == 0 || out[|out| - 1] == 0x20
  }

  /** A whole word and the space behind it. */
  lemma {:induction false} SqueezeWord(out: seq<Byte>, word: seq<Byte>, rest: seq<Byte>)
    requires |word| > 0 && 0x20 !in word
    requires |rest| > 0 ==> rest[0] == 0x20
    ensures Squeeze(false, out, word + rest) ==
            if |rest| == 0 then out + word else Squeeze(false, out + word + [0x20], rest[1..])
  {
    SqueezeAppends(false, out, word, rest);
    SqueezePlain(false, out, word);
    assert (out + word)[|out + word| - 1] == word[|word| - 1];
  }

  lemma {:induction false} FirstWord(s: seq<Byte>) returns (word: seq<Byte>, rest: seq<Byte>)
    requires |s| > 0 && s[0] != 0x20
    ensures s == word + rest && |word| > 0 && 0x20 !in word
    ensures |rest| > 0 ==> rest[0] == 0x20 && Words(rest) == Words(rest[1..])
    ensures Words(s) == [word] + Words(rest)
  {
    var k := WordEnd(s);
    word, rest := s[..k], s[k..];
  }

  /** What `SqueezeJoins` says of a value. */
  predicate Joins(out: seq<Byte>, s: seq<Byte>) {
    Chop(Squeeze(false, out, s)) == if |Words(s)| == 0 then Chop(out) else out + Joined(Words(s))
  }

  lemma {:induction false} JoinsWord(out: seq<Byte>, word: seq<Byte>, rest: seq<Byte>)
    requires |word| > 0 && 0x20 !in word
    requires |rest| > 0 ==>
               rest[0] == 0x20 && Words(rest) == Words(rest[1..]) && Joins(out + word + [0x20], rest[1..])
    ensures Chop(Squeeze(false, out, word + rest)) == out + Joined([word] + Words(rest))
  {
    hide Joined;
    hide Words;
    hide Squeeze;
    SqueezeWord(out, word, rest);
    JoinedFirst(word, Words(rest));
    if |rest| > 0 {
      var spaced := out + word + [0x20];
      assert spaced[..|spaced| - 1] == out + word;
      assert spaced + Joined(Words(rest)) == out + (word + [0x20] + Joined(Words(rest)));
    } else {
      NoWords();
      assert (out + word)[|out + word| - 1] == word[|word| - 1];
    }
  }

  /** At the start of a word, what follows is words joined by single spaces. */
  lemma {:induction false} SqueezeJoins(out: seq<Byte>, s: seq<Byte>)
    requires AtStart(out)
    ensures Joins(out, s)
    decreases |s|
  {
    hide Joined;
    hide Chop;
    if |s| == 0 {
    } else if s[0] == 0x20 {
      SqueezeJoins(out, s[1..]);
    } else {
      hide Squeeze;
      var word, rest := FirstWord(s);
      if |rest| > 0 {
        SqueezeJoins(out + word + [0x20], rest[1..]);
      }
      JoinsWord(out, word, rest);
    }
  }

  lemma {:induction false} NoWords()
    ensures Words([]) == []
  {
  }

  lemma {:induction false} JoinedFirst(word: seq<Byte>, words: seq<seq<Byte>>)
    ensures Joined([word] + words) == if |words| == 0 then word else word + [0x20] + Joined(words)
  {
    assert ([word] + words)[1..] == words;
  }

  /** storeAttributeValue, before the terminating zero. */
  function Stored(dtd: Dtd, open: set<EntityName>, enc: Encoding, cdata: bool, text: seq<Byte>): Outcome
    requires Proper(enc, text, 0) && ProperDtd(dtd)
  {
    var r := Run(dtd, open, enc, cdata, text, 0, []);
    if r.error.None? && !cdata then Outcome(None, Chop(r.value)) else r
  }

  /**
   * The stored value is the one section 3.3.3 describes: the expansion for CDATA attributes, and
   * for the others its words, joined by single spaces.
   */
  lemma {:induction false} StoredIsNormalised(dtd: Dtd, open: set<EntityName>, enc: Encoding, cdata: bool,
                                              text: seq<Byte>)
    requires Proper(enc, text, 0) && ProperDtd(dtd)
    ensures var e := Expansion(dtd, open, enc, text, 0);
            && Stored(dtd, open, enc, cdata, text).error == e.error
            && (e.error.None? ==>
                  Stored(dtd, open, enc, cdata, text).value == if cdata then e.value else Joined(Words(e.value)))
  {
    hide Expansion;
    hide Run;
    hide Proper;
    var e := Expansion(dtd, open, enc, text, 0);
    RunIsExpansion(dtd, open, enc, cdata, text, 0, []);
    if cdata {
      SqueezePlain(true, [], e.value);
      assert [] + e.value == e.value;
    } else {
      SqueezeJoins([], e.value);
      assert [] + Joined(Words(e.value)) == Joined(Words(e.value));
    }
  }
}
