/** Declarations of entities, notations and attribute lists, token by token with the role of each: what
    the prolog machine reports for them, and that it accepts nothing else (xmlrole.c). */
module Declarations {
  import opened Prolog
  import opened PrologRuns

  /** A token and the role reported for it. */
  datatype Line = Line(tok: Token, role: Role)

  datatype Maybe<T> = Nothing | Just(value: T)

  /** SYSTEM and one literal, or PUBLIC and two. */
  datatype ExternalId = System | Public

  datatype Definition = Value | External(id: ExternalId, notation: Maybe<string>)

  /** A notation may have a public identifier alone. */
  datatype NotationId = SystemOnly | PublicOnly | PublicAndSystem

  datatype AttType = Keyword(keyword: string) | Enumeration(values: seq<Token>) | Notations(names: seq<Token>)

  datatype DefaultDecl = Implied | Required | Fixed | Default

  datatype AttDef = AttDef(name: Token, kind: AttType, default: DefaultDecl)

  datatype Declaration =
    | EntityDecl(parameter: bool, name: string, definition: Definition)
    | NotationDecl(name: string, id: NotationId)
    | AttlistDecl(element: Token, atts: seq<AttDef>)

  predicate IsNameToken(tok: Token) { tok.Name? || tok.PrefixedName? }

  predicate GoodType(t: AttType) {
    match t
    case Keyword(k) => k in ["CDATA", "ID", "IDREF", "IDREFS", "ENTITY", "ENTITIES", "NMTOKEN", "NMTOKENS"]
    case Enumeration(vs) => |vs| > 0 && forall v | v in vs :: IsNameToken(v) || v.Nmtoken?
    case Notations(ns) => |ns| > 0 && forall n | n in ns :: n.Name?
  }

  predicate Good(d: Declaration) {
    match d
    case EntityDecl(parameter, _, definition) => parameter && definition.External? ==> definition.notation.Nothing?
    case NotationDecl(_, _) => true
    case AttlistDecl(element, atts) =>
      IsNameToken(element) && forall a | a in atts :: IsNameToken(a.name) && GoodType(a.kind)
  }

  // ----- the lines of a declaration -----

  function EntityHead(parameter: bool, name: string): seq<Line> {
    if parameter then
      [Line(DeclOpen("ENTITY"), REntityNone), Line(Percent, REntityNone), Line(Name(name), RParamEntityName)]
    else
      [Line(DeclOpen("ENTITY"), REntityNone), Line(Name(name), RGeneralEntityName)]
  }

  /** An external identifier without its system literal. */
  function IdStart(id: ExternalId): seq<Line> {
    if id.System? then [Line(Name("SYSTEM"), REntityNone)]
    else [Line(Name("PUBLIC"), REntityNone), Line(Literal, REntityPublicId)]
  }

  function IdLines(id: ExternalId): seq<Line> {
    IdStart(id) + [Line(Literal, REntitySystemId)]
  }

  function DefinitionLines(d: Definition): seq<Line> {
    match d
    case Value => [Line(Literal, REntityValue), Line(DeclCloseTok, REntityNone)]
    case External(id, Nothing) => IdLines(id) + [Line(DeclCloseTok, REntityComplete)]
    case External(id, Just(notation)) =>
      IdLines(id) + [Line(Name("NDATA"), REntityNone), Line(Name(notation), REntityNotationName),
                     Line(DeclCloseTok, REntityNone)]
  }

  function NotationHead(name: string): seq<Line> {
    [Line(DeclOpen("NOTATION"), RNotationNone), Line(Name(name), RNotationName)]
  }

  function NotationLines(id: NotationId): seq<Line> {
    match id
    case SystemOnly =>
      [Line(Name("SYSTEM"), RNotationNone), Line(Literal, RNotationSystemId), Line(DeclCloseTok, RNotationNone)]
    case PublicOnly =>
      [Line(Name("PUBLIC"), RNotationNone), Line(Literal, RNotationPublicId), Line(DeclCloseTok, RNotationNoSystemId)]
    case PublicAndSystem =>
      [Line(Name("PUBLIC"), RNotationNone), Line(Literal, RNotationPublicId), Line(Literal, RNotationSystemId),
       Line(DeclCloseTok, RNotationNone)]
  }

  function AttlistHead(element: Token): seq<Line> {
    [Line(DeclOpen("ATTLIST"), RAttlistNone), Line(element, RAttlistElementName)]
  }

  /** Choices, each with a bar behind it. */
  function Barred(values: seq<Token>, role: Role): seq<Line> {
    if |values| == 0 then []
    else Barred(values[..|values| - 1], role) + [Line(values[|values| - 1], role), Line(Or, RAttlistNone)]
  }

  /** Choices with bars between them. */
  function Choices(values: seq<Token>, role: Role): seq<Line>
    requires |values| > 0
  {
    Barred(values[..|values| - 1], role) + [Line(values[|values| - 1], role)]
  }

  function TypeStart(notation: bool): seq<Line> {
    if notation then [Line(Name("NOTATION"), RAttlistNone), Line(OpenParen, RAttlistNone)]
    else [Line(OpenParen, RAttlistNone)]
  }

  function ChoiceRole(notation: bool): Role {
    if notation then RAttributeNotationValue else RAttributeEnumValue
  }

  function TypeLines(t: AttType): seq<Line>
    requires GoodType(t)
  {
    match t
    case Keyword(k) => [Line(Name(k), RAttributeType(k))]
    case Enumeration(vs) => TypeStart(false) + Choices(vs, RAttributeEnumValue) + [Line(CloseParen, RAttlistNone)]
    case Notations(ns) => TypeStart(true) + Choices(ns, RAttributeNotationValue) + [Line(CloseParen, RAttlistNone)]
  }

  function DefaultLines(d: DefaultDecl): seq<Line> {
    match d
    case Implied => [Line(PoundName("IMPLIED"), RImpliedAttributeValue)]
    case Required => [Line(PoundName("REQUIRED"), RRequiredAttributeValue)]
    case Fixed => [Line(PoundName("FIXED"), RAttlistNone), Line(Literal, RFixedAttributeValue)]
    case Default => [Line(Literal, RDefaultAttributeValue)]
  }

  function AttLines(a: AttDef): seq<Line>
    requires GoodType(a.kind)
  {
    [Line(a.name, RAttributeName)] + TypeLines(a.kind) + DefaultLines(a.default)
  }

  predicate GoodAtts(atts: seq<AttDef>) {
    forall a | a in atts :: IsNameToken(a.name) && GoodType(a.kind)
  }

  function AttsLines(atts: seq<AttDef>): seq<Line>
    requires GoodAtts(atts)
  {
    if |atts| == 0 then [] else AttsLines(atts[..|atts| - 1]) + AttLines(atts[|atts| - 1])
  }

  /** A declaration from its opening to its '>'. */
  function Lines(d: Declaration): seq<Line>
    requires Good(d)
  {
    match d
    case EntityDecl(parameter, name, definition) => EntityHead(parameter, name) + DefinitionLines(definition)
    case NotationDecl(name, id) => NotationHead(name) + NotationLines(id)
    case AttlistDecl(element, atts) => AttlistHead(element) + AttsLines(atts) + [Line(DeclCloseTok, RAttlistNone)]
  }

  function TokensOf(lines: seq<Line>): seq<Token> {
    seq(|lines|, i requires 0 <= i < |lines| => lines[i].tok)
  }

  // ----- reading lines -----

  /** From st the machine reports exactly these lines, and is then in the state end. */
  ghost predicate Reports(st: State, lines: seq<Line>, end: State)
    decreases |lines|
  {
    if |lines| == 0 then end == st
    else Next(st, lines[0].tok).1 == lines[0].role && Reports(Next(st, lines[0].tok).0, lines[1..], end)
  }

  lemma {:induction false} ReportsThen(st: State, a: seq<Line>, mid: State, b: seq<Line>, end: State)
    requires Reports(st, a, mid) && Reports(mid, b, end)
    ensures Reports(st, a + b, end)
    decreases |a|
  {
    hide Next;
    if |a| == 0 {
      assert a + b == b;
    } else {
      assert (a + b)[1..] == a[1..] + b;
      ReportsThen(Next(st, a[0].tok).0, a[1..], mid, b, end);
    }
  }

  lemma {:induction false} ReportsOne(st: State, line: Line)
    requires Next(st, line.tok).1 == line.role
    ensures Reports(st, [line], Next(st, line.tok).0)
  {
    assert [line][1..] == [];
    assert Reports(Next(st, line.tok).0, [], Next(st, line.tok).0);
  }

  lemma {:induction false} ReportsTwo(st: State, x: Line, y: Line)
    requires Next(st, x.tok).1 == x.role && Next(Next(st, x.tok).0, y.tok).1 == y.role
    ensures Reports(st, [x, y], Next(Next(st, x.tok).0, y.tok).0)
  {
    hide Next;
    ReportsOne(st, x);
    ReportsOne(Next(st, x.tok).0, y);
    ReportsThen(st, [x], Next(st, x.tok).0, [y], Next(Next(st, x.tok).0, y.tok).0);
    assert [x] + [y] == [x, y];
  }

  lemma {:induction false} ReportsThree(st: State, x: Line, y: Line, z: Line)
    requires var s1 := Next(st, x.tok);
             var s2 := Next(s1.0, y.tok);
             s1.1 == x.role && s2.1 == y.role && Next(s2.0, z.tok).1 == z.role
    ensures Reports(st, [x, y, z], Next(Next(Next(st, x.tok).0, y.tok).0, z.tok).0)
  {
    hide Next;
    var s1 := Next(st, x.tok).0;
    ReportsOne(st, x);
    ReportsTwo(s1, y, z);
    ReportsThen(st, [x], s1, [y, z], Next(Next(s1, y.tok).0, z.tok).0);
    assert [x] + [y, z] == [x, y, z];
  }

  /** In front of a declaration. */
  predicate AtSubset(st: State) {
    if st.documentEntity then st.handler == InternalSubset else st.handler.ExternalSubset?
  }

  function At(st: State, h: Handler): State { st.(handler := h) }

  /** Behind a declaration; roleNone keeps what the declaration has left there. */
  function Behind(st: State, none: Role): State {
    st.(handler := TopLevel(st.documentEntity), roleNone := none)
  }

  lemma {:induction false} OpeningIsRead(st: State, text: string)
    requires AtSubset(st)
    ensures text == "ENTITY" ==> Next(st, DeclOpen(text)) == (At(st, Entity(0)), REntityNone)
    ensures text == "NOTATION" ==> Next(st, DeclOpen(text)) == (At(st, Notation(0)), RNotationNone)
    ensures text == "ATTLIST" ==> Next(st, DeclOpen(text)) == (At(st, Attlist(0)), RAttlistNone)
  {
  }

  function EntityBase(parameter: bool): nat { if parameter then 7 else 2 }

  lemma {:induction false} EntityHeadIsRead(st: State, parameter: bool, name: string)
    requires AtSubset(st)
    ensures Reports(st, EntityHead(parameter, name), At(st, Entity(EntityBase(parameter))))
  {
    OpeningIsRead(st, "ENTITY");
    var s := At(st, Entity(0));
    if parameter {
      assert Next(s, Percent) == (At(st, Entity(1)), REntityNone);
      assert Next(At(st, Entity(1)), Name(name)) == (At(st, Entity(7)), RParamEntityName);
      hide Next;
      ReportsThree(st, Line(DeclOpen("ENTITY"), REntityNone), Line(Percent, REntityNone), Line(Name(name), RParamEntityName));
    } else {
      assert Next(s, Name(name)) == (At(st, Entity(2)), RGeneralEntityName);
      hide Next;
      ReportsTwo(st, Line(DeclOpen("ENTITY"), REntityNone), Line(Name(name), RGeneralEntityName));
    }
  }

  lemma {:induction false} IdIsRead(st: State, parameter: bool, id: ExternalId)
    requires st.handler == Entity(EntityBase(parameter))
    ensures Reports(st, IdLines(id), At(st, Entity(EntityBase(parameter) + 3)))
  {
    if id.System? {
      SystemIsRead(st, parameter);
    } else {
      PublicIsRead(st, parameter);
    }
  }

  lemma {:induction false} IdMoves(st: State, parameter: bool)
    requires st.handler == Entity(EntityBase(parameter))
    ensures var b := EntityBase(parameter);
            && Next(st, Name("SYSTEM")) == (At(st, Entity(b + 2)), REntityNone)
            && Next(st, Name("PUBLIC")) == (At(st, Entity(b + 1)), REntityNone)
            && Next(At(st, Entity(b + 1)), Literal) == (At(st, Entity(b + 2)), REntityPublicId)
            && Next(At(st, Entity(b + 2)), Literal) == (At(st, Entity(b + 3)), REntitySystemId)
  {
  }

  lemma {:induction false} SystemIsRead(st: State, parameter: bool)
    requires st.handler == Entity(EntityBase(parameter))
    ensures Reports(st, IdLines(System), At(st, Entity(EntityBase(parameter) + 3)))
  {
    hide Next;
    hide Reports;
    IdMoves(st, parameter);
    ReportsTwo(st, Line(Name("SYSTEM"), REntityNone), Line(Literal, REntitySystemId));
    assert IdLines(System) == [Line(Name("SYSTEM"), REntityNone), Line(Literal, REntitySystemId)];
  }

  lemma {:induction false} PublicIsRead(st: State, parameter: bool)
    requires st.handler == Entity(EntityBase(parameter))
    ensures Reports(st, IdLines(Public), At(st, Entity(EntityBase(parameter) + 3)))
  {
    hide Next;
    hide Reports;
    IdMoves(st, parameter);
    ReportsThree(st, Line(Name("PUBLIC"), REntityNone), Line(Literal, REntityPublicId), Line(Literal, REntitySystemId));
    assert IdLines(Public) ==
           [Line(Name("PUBLIC"), REntityNone), Line(Literal, REntityPublicId), Line(Literal, REntitySystemId)];
  }

  lemma {:induction false} DefinitionIsRead(st: State, parameter: bool, d: Definition)
    requires st.handler == Entity(EntityBase(parameter)) && (parameter && d.External? ==> d.notation.Nothing?)
    ensures Reports(st, DefinitionLines(d),
                    Behind(st, if d.External? && d.notation.Nothing? then st.roleNone else REntityNone))
  {
    var b := EntityBase(parameter);
    if d.Value? {
      var s1 := st.(handler := DeclClose, roleNone := REntityNone);
      assert Next(st, Literal) == (s1, REntityValue);
      assert Next(s1, DeclCloseTok) == (Behind(st, REntityNone), REntityNone);
      hide Next;
      ReportsTwo(st, Line(Literal, REntityValue), Line(DeclCloseTok, REntityNone));
    } else {
      IdIsRead(st, parameter, d.id);
      var s := At(st, Entity(b + 3));
      if d.notation.Nothing? {
        assert Next(s, DeclCloseTok) == (Behind(st, st.roleNone), REntityComplete);
        hide Next;
        ReportsOne(s, Line(DeclCloseTok, REntityComplete));
        ReportsThen(st, IdLines(d.id), s, [Line(DeclCloseTok, REntityComplete)], Behind(st, st.roleNone));
      } else {
        NdataIsRead(s, d.notation.value);
        ReportsThen(st, IdLines(d.id), s, NdataLines(d.notation.value), Behind(st, REntityNone));
      }
    }
  }

  function NdataLines(notation: string): seq<Line> {
    [Line(Name("NDATA"), REntityNone), Line(Name(notation), REntityNotationName), Line(DeclCloseTok, REntityNone)]
  }

  lemma {:induction false} NdataIsRead(st: State, notation: string)
    requires st.handler == Entity(5)
    ensures Reports(st, NdataLines(notation), Behind(st, REntityNone))
  {
    var s2 := st.(handler := DeclClose, roleNone := REntityNone);
    assert Next(st, Name("NDATA")) == (At(st, Entity(6)), REntityNone);
    assert Next(At(st, Entity(6)), Name(notation)) == (s2, REntityNotationName);
    assert Next(s2, DeclCloseTok) == (Behind(st, REntityNone), REntityNone);
    hide Next;
    ReportsThree(st, Line(Name("NDATA"), REntityNone), Line(Name(notation), REntityNotationName), Line(DeclCloseTok, REntityNone));
  }

  lemma {:induction false} NotationIsRead(st: State, name: string, id: NotationId)
    requires AtSubset(st)
    ensures Reports(st, NotationHead(name) + NotationLines(id),
                    Behind(st, if id.PublicOnly? then st.roleNone else RNotationNone))
  {
    OpeningIsRead(st, "NOTATION");
    var s := At(st, Notation(1));
    assert Next(At(st, Notation(0)), Name(name)) == (s, RNotationName);
    NotationIdIsRead(s, id);
    hide Next;
    ReportsTwo(st, Line(DeclOpen("NOTATION"), RNotationNone), Line(Name(name), RNotationName));
    ReportsThen(st, NotationHead(name), s, NotationLines(id), Behind(st, if id.PublicOnly? then st.roleNone else RNotationNone));
  }

  lemma {:induction false} NotationIdIsRead(st: State, id: NotationId)
    requires st.handler == Notation(1)
    ensures Reports(st, NotationLines(id), Behind(st, if id.PublicOnly? then st.roleNone else RNotationNone))
  {
    if id.SystemOnly? {
      SystemNotationIsRead(st);
    } else {
      PublicNotationIsRead(st, id);
    }
  }

  lemma {:induction false} SystemNotationIsRead(st: State)
    requires st.handler == Notation(1)
    ensures Reports(st, NotationLines(SystemOnly), Behind(st, RNotationNone))
  {
    var s3 := st.(handler := DeclClose, roleNone := RNotationNone);
    assert Next(st, Name("SYSTEM")) == (At(st, Notation(3)), RNotationNone);
    assert Next(At(st, Notation(3)), Literal) == (s3, RNotationSystemId);
    assert Next(s3, DeclCloseTok) == (Behind(st, RNotationNone), RNotationNone);
    hide Next;
    ReportsThree(st, Line(Name("SYSTEM"), RNotationNone), Line(Literal, RNotationSystemId),
                 Line(DeclCloseTok, RNotationNone));
  }

  lemma {:induction false} PublicNotationMoves(st: State)
    requires st.handler == Notation(1)
    ensures var s2, s3 := At(st, Notation(4)), st.(handler := DeclClose, roleNone := RNotationNone);
            && Next(st, Name("PUBLIC")) == (At(st, Notation(2)), RNotationNone)
            && Next(At(st, Notation(2)), Literal) == (s2, RNotationPublicId)
            && Next(s2, DeclCloseTok) == (Behind(st, st.roleNone), RNotationNoSystemId)
            && Next(s2, Literal) == (s3, RNotationSystemId)
            && Next(s3, DeclCloseTok) == (Behind(st, RNotationNone), RNotationNone)
  {
  }

  lemma {:induction false} PublicNotationIsRead(st: State, id: NotationId)
    requires st.handler == Notation(1) && !id.SystemOnly?
    ensures Reports(st, NotationLines(id), Behind(st, if id.PublicOnly? then st.roleNone else RNotationNone))
  {
    hide Next;
    hide Reports;
    PublicNotationMoves(st);
    var s2 := At(st, Notation(4));
    var first := [Line(Name("PUBLIC"), RNotationNone), Line(Literal, RNotationPublicId)];
    ReportsTwo(st, Line(Name("PUBLIC"), RNotationNone), Line(Literal, RNotationPublicId));
    if id.PublicOnly? {
      ReportsOne(s2, Line(DeclCloseTok, RNotationNoSystemId));
      ReportsThen(st, first, s2, [Line(DeclCloseTok, RNotationNoSystemId)], Behind(st, st.roleNone));
      assert first + [Line(DeclCloseTok, RNotationNoSystemId)] == NotationLines(id);
    } else {
      var last := [Line(Literal, RNotationSystemId), Line(DeclCloseTok, RNotationNone)];
      ReportsTwo(s2, Line(Literal, RNotationSystemId), Line(DeclCloseTok, RNotationNone));
      ReportsThen(st, first, s2, last, Behind(st, RNotationNone));
      assert first + last == NotationLines(id);
    }
  }

  // ----- attribute lists -----

  /** The handler that expects a choice, and the one behind it. */
  function ChoiceHandler(notation: bool): nat { if notation then 6 else 3 }

  predicate IsChoice(notation: bool, v: Token) {
    if notation then v.Name? else IsNameToken(v) || v.Nmtoken?
  }

  lemma {:induction false} ChoiceIsRead(st: State, notation: bool, v: Token)
    requires st.handler == Attlist(ChoiceHandler(notation)) && IsChoice(notation, v)
    ensures Next(st, v) == (At(st, Attlist(ChoiceHandler(notation) + 1)), ChoiceRole(notation))
    ensures Next(At(st, Attlist(ChoiceHandler(notation) + 1)), Or) == (st, RAttlistNone)
    ensures Next(At(st, Attlist(ChoiceHandler(notation) + 1)), CloseParen) == (At(st, Attlist(8)), RAttlistNone)
  {
  }

  lemma {:induction false} BarredAreRead(st: State, notation: bool, vs: seq<Token>)
    requires st.handler == Attlist(ChoiceHandler(notation)) && forall v | v in vs :: IsChoice(notation, v)
    ensures Reports(st, Barred(vs, ChoiceRole(notation)), st)
    decreases |vs|
  {
    hide Next;
    if |vs| > 0 {
      var before, v, role := vs[..|vs| - 1], vs[|vs| - 1], ChoiceRole(notation);
      BarredAreRead(st, notation, before);
      ChoiceIsRead(st, notation, v);
      ReportsTwo(st, Line(v, role), Line(Or, RAttlistNone));
      ReportsThen(st, Barred(before, role), st, [Line(v, role), Line(Or, RAttlistNone)], st);
    }
  }

  lemma {:induction false} ChoicesAreRead(st: State, notation: bool, vs: seq<Token>)
    requires st.handler == Attlist(ChoiceHandler(notation)) && |vs| > 0 && forall v | v in vs :: IsChoice(notation, v)
    ensures Reports(st, Choices(vs, ChoiceRole(notation)) + [Line(CloseParen, RAttlistNone)], At(st, Attlist(8)))
  {
    hide Next;
    var before, v, role := vs[..|vs| - 1], vs[|vs| - 1], ChoiceRole(notation);
    BarredAreRead(st, notation, before);
    ChoiceIsRead(st, notation, v);
    ReportsTwo(st, Line(v, role), Line(CloseParen, RAttlistNone));
    ReportsThen(st, Barred(before, role), st, [Line(v, role), Line(CloseParen, RAttlistNone)], At(st, Attlist(8)));
    assert Choices(vs, role) + [Line(CloseParen, RAttlistNone)] ==
           Barred(before, role) + [Line(v, role), Line(CloseParen, RAttlistNone)];
  }

  lemma {:induction false} TypeStartIsRead(st: State, notation: bool)
    requires st.handler == Attlist(2)
    ensures Reports(st, TypeStart(notation), At(st, Attlist(ChoiceHandler(notation))))
  {
    if notation {
      assert Next(st, Name("NOTATION")) == (At(st, Attlist(5)), RAttlistNone);
      assert Next(At(st, Attlist(5)), OpenParen) == (At(st, Attlist(6)), RAttlistNone);
      hide Next;
      ReportsTwo(st, Line(Name("NOTATION"), RAttlistNone), Line(OpenParen, RAttlistNone));
    } else {
      assert Next(st, OpenParen) == (At(st, Attlist(3)), RAttlistNone);
      hide Next;
      ReportsOne(st, Line(OpenParen, RAttlistNone));
    }
  }

  lemma {:induction false} TypeIsRead(st: State, t: AttType)
    requires st.handler == Attlist(2) && GoodType(t)
    ensures Reports(st, TypeLines(t), At(st, Attlist(8)))
  {
    match t
    case Keyword(k) =>
      assert Next(st, Name(k)) == (At(st, Attlist(8)), RAttributeType(k));
      hide Next;
      ReportsOne(st, Line(Name(k), RAttributeType(k)));
    case Enumeration(vs) => ListIsRead(st, false, vs);
    case Notations(ns) => ListIsRead(st, true, ns);
  }

  lemma {:induction false} ListIsRead(st: State, notation: bool, vs: seq<Token>)
    requires st.handler == Attlist(2) && |vs| > 0 && forall v | v in vs :: IsChoice(notation, v)
    ensures Reports(st, TypeStart(notation) + Choices(vs, ChoiceRole(notation)) + [Line(CloseParen, RAttlistNone)],
                    At(st, Attlist(8)))
  {
    hide Next;
    var s, role := At(st, Attlist(ChoiceHandler(notation))), ChoiceRole(notation);
    var list := Choices(vs, role) + [Line(CloseParen, RAttlistNone)];
    TypeStartIsRead(st, notation);
    ChoicesAreRead(s, notation, vs);
    ReportsThen(st, TypeStart(notation), s, list, At(st, Attlist(8)));
    assert TypeStart(notation) + list == TypeStart(notation) + Choices(vs, role) + [Line(CloseParen, RAttlistNone)];
  }

  lemma {:induction false} DefaultIsRead(st: State, d: DefaultDecl)
    requires st.handler == Attlist(8)
    ensures Reports(st, DefaultLines(d), At(st, Attlist(1)))
  {
    var end := At(st, Attlist(1));
    assert Next(st, PoundName("IMPLIED")) == (end, RImpliedAttributeValue);
    assert Next(st, PoundName("REQUIRED")) == (end, RRequiredAttributeValue);
    assert Next(st, PoundName("FIXED")) == (At(st, Attlist(9)), RAttlistNone);
    assert Next(At(st, Attlist(9)), Literal) == (end, RFixedAttributeValue);
    assert Next(st, Literal) == (end, RDefaultAttributeValue);
    hide Next;
    match d
    case Implied => ReportsOne(st, Line(PoundName("IMPLIED"), RImpliedAttributeValue));
    case Required => ReportsOne(st, Line(PoundName("REQUIRED"), RRequiredAttributeValue));
    case Fixed => ReportsTwo(st, Line(PoundName("FIXED"), RAttlistNone), Line(Literal, RFixedAttributeValue));
    case Default => ReportsOne(st, Line(Literal, RDefaultAttributeValue));
  }

  lemma {:induction false} AttIsRead(st: State, a: AttDef)
    requires st.handler == Attlist(1) && IsNameToken(a.name) && GoodType(a.kind)
    ensures Reports(st, AttLines(a), st)
  {
    var s2, s8 := At(st, Attlist(2)), At(st, Attlist(8));
    assert Next(st, a.name) == (s2, RAttributeName);
    hide Next;
    hide TypeLines;
    ReportsOne(st, Line(a.name, RAttributeName));
    TypeIsRead(s2, a.kind);
    DefaultIsRead(s8, a.default);
    ReportsThen(st, [Line(a.name, RAttributeName)], s2, TypeLines(a.kind), s8);
    ReportsThen(st, [Line(a.name, RAttributeName)] + TypeLines(a.kind), s8, DefaultLines(a.default), st);
  }

  lemma {:induction false} AttsAreRead(st: State, atts: seq<AttDef>)
    requires st.handler == Attlist(1) && GoodAtts(atts)
    ensures Reports(st, AttsLines(atts), st)
    decreases |atts|
  {
    hide Next;
    hide AttLines;
    if |atts| > 0 {
      var before, a := atts[..|atts| - 1], atts[|atts| - 1];
      AttsAreRead(st, before);
      AttIsRead(st, a);
      ReportsThen(st, AttsLines(before), st, AttLines(a), st);
    }
  }

  /** What a declaration leaves in roleNone. */
  function NoneLeft(st: State, d: Declaration): Role {
    match d
    case EntityDecl(_, _, definition) =>
      if definition.External? && definition.notation.Nothing? then st.roleNone else REntityNone
    case NotationDecl(_, id) => if id.PublicOnly? then st.roleNone else RNotationNone
    case AttlistDecl(_, _) => st.roleNone
  }

  /** The lines of a declaration are reported, and the machine is back in front of the next one. */
  lemma {:induction false} DeclarationIsRead(st: State, d: Declaration)
    requires AtSubset(st) && Good(d)
    ensures Reports(st, Lines(d), Behind(st, NoneLeft(st, d)))
  {
    match d
    case EntityDecl(parameter, name, definition) =>
      hide Next;
      var s := At(st, Entity(EntityBase(parameter)));
      EntityHeadIsRead(st, parameter, name);
      DefinitionIsRead(s, parameter, definition);
      ReportsThen(st, EntityHead(parameter, name), s, DefinitionLines(definition), Behind(st, NoneLeft(st, d)));
    case NotationDecl(name, id) => NotationIsRead(st, name, id);
    case AttlistDecl(element, atts) => AttlistIsRead(st, element, atts);
  }

  lemma {:induction false} AttlistIsRead(st: State, element: Token, atts: seq<AttDef>)
    requires AtSubset(st) && IsNameToken(element) && GoodAtts(atts)
    ensures Reports(st, AttlistHead(element) + AttsLines(atts) + [Line(DeclCloseTok, RAttlistNone)],
                    Behind(st, st.roleNone))
  {
    hide Next;
    hide Reports;
    hide AttsLines;
    var s, last := At(st, Attlist(1)), [Line(DeclCloseTok, RAttlistNone)];
    AttlistMovesOutside(st, element);
    ReportsTwo(st, Line(DeclOpen("ATTLIST"), RAttlistNone), Line(element, RAttlistElementName));
    AttsAreRead(s, atts);
    ReportsOne(s, Line(DeclCloseTok, RAttlistNone));
    ReportsThen(s, AttsLines(atts), s, last, Behind(st, st.roleNone));
    ReportsThen(st, AttlistHead(element), s, AttsLines(atts) + last, Behind(st, st.roleNone));
    assert AttlistHead(element) + (AttsLines(atts) + last) == AttlistHead(element) + AttsLines(atts) + last;
  }

  lemma {:induction false} AttlistMovesOutside(st: State, element: Token)
    requires AtSubset(st) && IsNameToken(element)
    ensures Next(st, DeclOpen("ATTLIST")) == (At(st, Attlist(0)), RAttlistNone)
    ensures Next(At(st, Attlist(0)), element) == (At(st, Attlist(1)), RAttlistElementName)
    ensures Next(At(st, Attlist(1)), DeclCloseTok) == (Behind(st, st.roleNone), RAttlistNone)
  {
    OpeningIsRead(st, "ATTLIST");
  }

  // ----- blanks and parameter entity references between the tokens -----

  predicate Skipped(tok: Token) { tok.S? || tok.ParamEntityRef? }

  function Clean(toks: seq<Token>): seq<Token> {
    if |toks| == 0 then [] else (if Skipped(toks[0]) then [] else [toks[0]]) + Clean(toks[1..])
  }

  /** The tokens that are not skipped, each with the role reported for it. */
  function LinesOf(st: State, toks: seq<Token>): seq<Line>
    decreases |toks|
  {
    if |toks| == 0 then []
    else
      var (next, role) := Next(st, toks[0]);
      (if Skipped(toks[0]) then [] else [Line(toks[0], role)]) + LinesOf(next, toks[1..])
  }

  lemma {:induction false} RunFirst(st: State, toks: seq<Token>)
    requires |toks| > 0
    ensures Run(st, toks) == Run(Next(st, toks[0]).0, toks[1..])
    decreases |toks|
  {
    hide Next;
    var before := toks[..|toks| - 1];
    if |toks| == 1 {
      assert before == [] && toks[1..] == [];
    } else {
      RunFirst(st, before);
      assert toks[1..][..|toks| - 2] == before[1..];
    }
  }

  /** Inside a declaration of an entity, a notation or an attribute list. */
  predicate Declaring(st: State) {
    st.handler.Entity? || st.handler.Notation? || st.handler.Attlist? || st.handler.DeclClose?
  }

  /** Only an external entity may refer to parameter entities inside a declaration. */
  predicate Allowed(st: State, toks: seq<Token>) {
    st.documentEntity ==> forall t | t in toks :: !t.ParamEntityRef?
  }

  /** The role of what is skipped: that of the declaration, or the one for a parameter entity reference. */
  function QuietRole(st: State, tok: Token): Role {
    if tok.ParamEntityRef? then RInnerParamEntityRef
    else match st.handler
      case Entity(_) => REntityNone
      case Notation(_) => RNotationNone
      case Attlist(_) => RAttlistNone
      case _ => st.roleNone
  }

  lemma {:induction false} SkippedChangesNothing(st: State, tok: Token)
    requires Declaring(st) && Skipped(tok) && (st.documentEntity ==> !tok.ParamEntityRef?)
    ensures Next(st, tok) == (st, QuietRole(st, tok))
  {
  }

  lemma {:induction false} EntityStays(st: State, i: nat, tok: Token)
    requires st.handler == Entity(i) && !tok.DeclCloseTok?
    ensures Declaring(Next(st, tok).0) || Next(st, tok).1.RError?
    ensures Next(st, tok).0.documentEntity == st.documentEntity
  {
  }

  lemma {:induction false} NotationStays(st: State, i: nat, tok: Token)
    requires st.handler == Notation(i) && !tok.DeclCloseTok?
    ensures Declaring(Next(st, tok).0) || Next(st, tok).1.RError?
    ensures Next(st, tok).0.documentEntity == st.documentEntity
  {
  }

  lemma {:induction false} AttlistStays(st: State, i: nat, tok: Token)
    requires st.handler == Attlist(i) && !tok.DeclCloseTok?
    ensures Declaring(Next(st, tok).0) || Next(st, tok).1.RError?
    ensures Next(st, tok).0.documentEntity == st.documentEntity
  {
  }

  lemma {:induction false} StaysInside(st: State, tok: Token)
    requires Declaring(st) && !tok.DeclCloseTok? && !Next(st, tok).1.RError?
    ensures Declaring(Next(st, tok).0) && Next(st, tok).0.documentEntity == st.documentEntity
  {
    if st.handler.Entity? {
      EntityStays(st, st.handler.i, tok);
    } else if st.handler.Notation? {
      NotationStays(st, st.handler.i, tok);
    } else if st.handler.Attlist? {
      AttlistStays(st, st.handler.i, tok);
    }
  }

  /** Only the last line closes, and none is an error. */
  predicate ClosesLast(lines: seq<Line>) {
    && |lines| > 0 && lines[|lines| - 1].tok.DeclCloseTok?
    && forall i | 0 <= i < |lines| :: (i < |lines| - 1 ==> !lines[i].tok.DeclCloseTok?) && !lines[i].role.RError?
  }

  predicate PlainLine(l: Line) { !l.tok.DeclCloseTok? && !l.role.RError? && !Skipped(l.tok) }

  predicate Plain(lines: seq<Line>) {
    forall i | 0 <= i < |lines| :: PlainLine(lines[i])
  }

  lemma {:induction false} PlainAppends(a: seq<Line>, b: seq<Line>)
    requires Plain(a) && Plain(b)
    ensures Plain(a + b)
  {
  }

  lemma {:induction false} BarredArePlain(vs: seq<Token>, notation: bool)
    requires forall v | v in vs :: IsChoice(notation, v)
    ensures Plain(Barred(vs, ChoiceRole(notation)))
    decreases |vs|
  {
    if |vs| > 0 {
      var last := [Line(vs[|vs| - 1], ChoiceRole(notation)), Line(Or, RAttlistNone)];
      BarredArePlain(vs[..|vs| - 1], notation);
      assert IsChoice(notation, vs[|vs| - 1]);
      PlainAppends(Barred(vs[..|vs| - 1], ChoiceRole(notation)), last);
    }
  }

  lemma {:induction false} ListIsPlain(notation: bool, vs: seq<Token>)
    requires |vs| > 0 && forall v | v in vs :: IsChoice(notation, v)
    ensures Plain(TypeStart(notation) + Choices(vs, ChoiceRole(notation)) + [Line(CloseParen, RAttlistNone)])
  {
    var last := [Line(vs[|vs| - 1], ChoiceRole(notation))];
    BarredArePlain(vs[..|vs| - 1], notation);
    assert IsChoice(notation, vs[|vs| - 1]);
    PlainAppends(Barred(vs[..|vs| - 1], ChoiceRole(notation)), last);
    PlainAppends(TypeStart(notation), Choices(vs, ChoiceRole(notation)));
    PlainAppends(TypeStart(notation) + Choices(vs, ChoiceRole(notation)), [Line(CloseParen, RAttlistNone)]);
  }

  lemma {:induction false} AttIsPlain(a: AttDef)
    requires IsNameToken(a.name) && GoodType(a.kind)
    ensures Plain(AttLines(a))
  {
    assert Plain([Line(a.name, RAttributeName)]) && Plain(DefaultLines(a.default));
    match a.kind
    case Keyword(_) =>
    case Enumeration(vs) =>
      ListIsPlain(false, vs);
      AttPartsArePlain(a);
    case Notations(ns) =>
      ListIsPlain(true, ns);
      AttPartsArePlain(a);
  }

  lemma {:induction false} AttPartsArePlain(a: AttDef)
    requires GoodType(a.kind) && Plain([Line(a.name, RAttributeName)]) && Plain(TypeLines(a.kind)) && Plain(DefaultLines(a.default))
    ensures Plain(AttLines(a))
  {
    hide Plain;
    hide TypeLines;
    hide DefaultLines;
    PlainAppends([Line(a.name, RAttributeName)], TypeLines(a.kind));
    PlainAppends([Line(a.name, RAttributeName)] + TypeLines(a.kind), DefaultLines(a.default));
  }

  lemma {:induction false} AttsArePlain(atts: seq<AttDef>)
    requires GoodAtts(atts)
    ensures Plain(AttsLines(atts))
    decreases |atts|
  {
    hide AttLines;
    if |atts| > 0 {
      AttsArePlain(atts[..|atts| - 1]);
      AttIsPlain(atts[|atts| - 1]);
      hide Plain;
      PlainAppends(AttsLines(atts[..|atts| - 1]), AttLines(atts[|atts| - 1]));
    }
  }

  lemma {:induction false} PlainAndClose(lines: seq<Line>, role: Role)
    requires Plain(lines) && !role.RError?
    ensures ClosesLast(lines + [Line(DeclCloseTok, role)])
    ensures forall l | l in lines + [Line(DeclCloseTok, role)] :: !Skipped(l.tok)
  {
  }

  lemma {:induction false} EntityClosesLast(parameter: bool, name: string, d: Definition)
    ensures var lines := EntityHead(parameter, name) + DefinitionLines(d);
            ClosesLast(lines) && forall l | l in lines :: !Skipped(l.tok)
  {
    var lines := EntityHead(parameter, name) + DefinitionLines(d);
    var last := lines[|lines| - 1];
    assert Plain(EntityHead(parameter, name)) && Plain(DefinitionLines(d)[..|DefinitionLines(d)| - 1]);
    assert lines == EntityHead(parameter, name) + DefinitionLines(d)[..|DefinitionLines(d)| - 1] + [last];
    PlainAppends(EntityHead(parameter, name), DefinitionLines(d)[..|DefinitionLines(d)| - 1]);
    PlainAndClose(EntityHead(parameter, name) + DefinitionLines(d)[..|DefinitionLines(d)| - 1], last.role);
  }

  lemma {:induction false} NotationClosesLast(name: string, id: NotationId)
    ensures var lines := NotationHead(name) + NotationLines(id);
            ClosesLast(lines) && forall l | l in lines :: !Skipped(l.tok)
  {
  }

  lemma {:induction false} AttlistClosesLast(element: Token, atts: seq<AttDef>)
    requires IsNameToken(element) && GoodAtts(atts)
    ensures var lines := AttlistHead(element) + AttsLines(atts) + [Line(DeclCloseTok, RAttlistNone)];
            ClosesLast(lines) && forall l | l in lines :: !Skipped(l.tok)
  {
    AttsArePlain(atts);
    assert Plain(AttlistHead(element));
    hide Plain;
    PlainAppends(AttlistHead(element), AttsLines(atts));
    PlainAndClose(AttlistHead(element) + AttsLines(atts), RAttlistNone);
  }

  lemma {:induction false} LinesCloseLast(d: Declaration)
    requires Good(d)
    ensures ClosesLast(Lines(d)) && |Lines(d)| > 1
    ensures forall l | l in Lines(d) :: !Skipped(l.tok)
  {
    hide ClosesLast;
    match d
    case EntityDecl(parameter, name, definition) => EntityClosesLast(parameter, name, definition);
    case NotationDecl(name, id) => NotationClosesLast(name, id);
    case AttlistDecl(element, atts) => AttlistClosesLast(element, atts);
  }

  /** Lines that are reported are reported with blanks between them too. */
  lemma {:induction false} SpacedReports(st: State, lines: seq<Line>, end: State, toks: seq<Token>)
    requires Declaring(st) && Reports(st, lines, end) && ClosesLast(lines) && Allowed(st, toks)
    requires Clean(toks) == TokensOf(lines) && |toks| > 0 && !Skipped(toks[|toks| - 1])
    ensures Run(st, toks) == end && LinesOf(st, toks) == lines
    ensures forall k | 0 <= k < |toks| :: Declaring(Run(st, toks[..k]))
    decreases |toks|
  {
    hide Next;
    var t, rest := toks[0], toks[1..];
    RunFirst(st, toks);
    if Skipped(t) {
      SkippedChangesNothing(st, t);
      SpacedReports(st, lines, end, rest);
    } else {
      assert Clean(toks)[0] == t && Clean(toks)[1..] == Clean(rest);
      assert t == lines[0].tok && TokensOf(lines)[1..] == TokensOf(lines[1..]);
      var next := Next(st, t).0;
      if |lines| > 1 {
        StaysInside(st, t);
        NotEmpty(rest, lines[1..]);
        SpacedReports(next, lines[1..], end, rest);
      } else {
        NothingBehind(rest);
      }
    }
    forall k | 0 <= k < |toks|
      ensures Declaring(Run(st, toks[..k]))
    {
      if k > 0 {
        RunFirst(st, toks[..k]);
        assert toks[..k][1..] == rest[..k - 1];
      }
    }
  }

  lemma {:induction false} NotEmpty(toks: seq<Token>, lines: seq<Line>)
    requires Clean(toks) == TokensOf(lines) && |lines| > 0
    ensures |toks| > 0
  {
  }

  lemma {:induction false} NothingBehind(toks: seq<Token>)
    requires Clean(toks) == [] && (|toks| > 0 ==> !Skipped(toks[|toks| - 1]))
    ensures toks == []
    decreases |toks|
  {
    if |toks| > 0 {
      if |toks| > 1 {
        NothingBehind(toks[1..]);
      }
      assert false;
    }
  }

  /** The tokens of one declaration: it begins with its opening, and the machine leaves it at the last token. */
  ghost predicate Declares(st: State, toks: seq<Token>) {
    && AtSubset(st) && |toks| > 1 && toks[0].DeclOpen? && toks[0].text in ["ENTITY", "NOTATION", "ATTLIST"]
    && (forall k | 1 <= k < |toks| :: Declaring(Run(st, toks[..k])))
    && Run(st, toks).handler == TopLevel(st.documentEntity)
  }

  /** A declaration, with blanks anywhere inside, is reported by exactly its lines. */
  lemma {:induction false} DeclarationIsReported(st: State, d: Declaration, toks: seq<Token>)
    requires AtSubset(st) && Good(d) && Allowed(st, toks)
    requires Clean(toks) == TokensOf(Lines(d)) && |toks| > 0 && !Skipped(toks[0]) && !Skipped(toks[|toks| - 1])
    ensures Declares(st, toks) && LinesOf(st, toks) == Lines(d)
  {
    hide Next;
    hide Lines;
    hide Good;
    LinesCloseLast(d);
    DeclarationIsRead(st, d);
    var lines, t, rest := Lines(d), toks[0], toks[1..];
    assert Clean(toks)[0] == t && Clean(toks)[1..] == Clean(rest);
    assert t == lines[0].tok && TokensOf(lines)[1..] == TokensOf(lines[1..]);
    FirstToken(d);
    OpeningIsRead(st, t.text);
    var next := Next(st, t).0;
    NotEmpty(rest, lines[1..]);
    RunFirst(st, toks);
    SpacedReports(next, lines[1..], Behind(st, NoneLeft(st, d)), rest);
    forall k | 1 <= k < |toks|
      ensures Declaring(Run(st, toks[..k]))
    {
      RunFirst(st, toks[..k]);
      assert toks[..k][1..] == rest[..k - 1];
    }
  }

  lemma {:induction false} FirstToken(d: Declaration)
    requires Good(d)
    ensures |Lines(d)| > 0 && Lines(d)[0].tok.DeclOpen?
    ensures Lines(d)[0].tok.text in ["ENTITY", "NOTATION", "ATTLIST"]
  {
  }

  // ----- nothing else is accepted -----

  /** What stands behind the name of an entity, k handlers further on. */
  function EntityTail(k: nat, id: ExternalId): seq<Line> {
    if k == 0 then []
    else if k == 1 then [Line(Name("PUBLIC"), REntityNone)]
    else if k == 2 then IdStart(id)
    else if k == 3 then IdLines(id)
    else IdLines(id) + [Line(Name("NDATA"), REntityNone)]
  }

  predicate EntityAt(i: nat, lines: seq<Line>, name: string, id: ExternalId) {
    && 2 <= i <= 10
    && var parameter := i >= 7;
    lines == EntityHead(parameter, name) + EntityTail(i - EntityBase(parameter), id)
  }

  ghost predicate EntityPartial(i: nat, lines: seq<Line>) {
    if i == 0 then lines == [Line(DeclOpen("ENTITY"), REntityNone)]
    else if i == 1 then lines == [Line(DeclOpen("ENTITY"), REntityNone), Line(Percent, REntityNone)]
    else exists name, id :: EntityAt(i, lines, name, id)
  }

  ghost predicate NotationPartial(i: nat, lines: seq<Line>) {
    if i == 0 then lines == [Line(DeclOpen("NOTATION"), RNotationNone)]
    else exists name :: NotationAt(i, lines, name)
  }

  predicate NotationAt(i: nat, lines: seq<Line>, name: string) {
    && i <= 4
    && lines == NotationHead(name) +
                (if i == 2 then [Line(Name("PUBLIC"), RNotationNone)]
                 else if i == 3 then [Line(Name("SYSTEM"), RNotationNone)]
                 else if i == 4 then [Line(Name("PUBLIC"), RNotationNone), Line(Literal, RNotationPublicId)]
                 else [])
  }

  /** An attribute list up to the name of one more attribute. */
  function Named(element: Token, atts: seq<AttDef>, name: Token): seq<Line>
    requires GoodAtts(atts)
  {
    AttlistHead(element) + AttsLines(atts) + [Line(name, RAttributeName)]
  }

  /** What stands behind the name of an attribute. */
  predicate TailAt(i: nat, tail: seq<Line>, vs: seq<Token>, t: AttType) {
    if i == 2 then tail == []
    else if i == 3 || i == 6 then
      && (forall v | v in vs :: IsChoice(i == 6, v))
      && tail == TypeStart(i == 6) + Barred(vs, ChoiceRole(i == 6))
    else if i == 4 || i == 7 then
      && |vs| > 0 && (forall v | v in vs :: IsChoice(i == 7, v))
      && tail == TypeStart(i == 7) + Choices(vs, ChoiceRole(i == 7))
    else if i == 5 then tail == [Line(Name("NOTATION"), RAttlistNone)]
    else if i == 8 then GoodType(t) && tail == TypeLines(t)
    else i == 9 && GoodType(t) && tail == TypeLines(t) + [Line(PoundName("FIXED"), RAttlistNone)]
  }

  /** What has been read of an attribute list: whole attributes, and parts of one more. */
  datatype Parts = Parts(element: Token, atts: seq<AttDef>, name: Token, tail: seq<Line>, vs: seq<Token>, t: AttType)

  predicate AttlistAt(i: nat, lines: seq<Line>, p: Parts) {
    && IsNameToken(p.element) && GoodAtts(p.atts) && IsNameToken(p.name)
    && lines == Named(p.element, p.atts, p.name) + p.tail && TailAt(i, p.tail, p.vs, p.t)
  }

  ghost predicate AttlistPartial(i: nat, lines: seq<Line>) {
    if i == 0 then lines == [Line(DeclOpen("ATTLIST"), RAttlistNone)]
    else if i == 1 then exists element, atts :: AttlistBegun(lines, element, atts)
    else exists p :: AttlistAt(i, lines, p)
  }

  /** Some whole attributes. */
  predicate AttlistBegun(lines: seq<Line>, element: Token, atts: seq<AttDef>) {
    IsNameToken(element) && GoodAtts(atts) && lines == AttlistHead(element) + AttsLines(atts)
  }

  ghost predicate IsDeclaration(lines: seq<Line>) {
    exists d :: Good(d) && Lines(d) == lines
  }

  /** The lines read so far are the beginning of a declaration; when it is over, they are one. */
  ghost predicate Explained(st: State, lines: seq<Line>) {
    match st.handler
    case Entity(i) => EntityPartial(i, lines)
    case Notation(i) => NotationPartial(i, lines)
    case Attlist(i) => AttlistPartial(i, lines)
    case DeclClose => IsDeclaration(lines + [Line(DeclCloseTok, st.roleNone)])
    case _ => IsDeclaration(lines)
  }

  // ----- entities -----

  lemma {:induction false} EntityOpenStep(st: State, i: nat, tok: Token, lines: seq<Line>)
    requires st.handler == Entity(i) && i <= 1 && EntityPartial(i, lines) && !Skipped(tok)
    requires !Next(st, tok).1.RError?
    ensures Explained(Next(st, tok).0, lines + [Line(tok, Next(st, tok).1)])
  {
    if i == 0 && tok.Percent? {
    } else {
      var parameter := i == 1;
      assert tok.Name?;
      assert Next(st, tok).0.handler == Entity(EntityBase(parameter));
      assert lines + [Line(tok, Next(st, tok).1)] == EntityHead(parameter, tok.text) + EntityTail(0, System);
      assert EntityAt(EntityBase(parameter), lines + [Line(tok, Next(st, tok).1)], tok.text, System);
    }
  }

  /** The moves of the handlers behind the name of an entity, counted from the first of them. */
  lemma {:induction false} EntityMoves(st: State, parameter: bool, k: nat, tok: Token)
    requires k <= 4 && (parameter ==> k <= 3) && st.handler == Entity(EntityBase(parameter) + k) && !Skipped(tok)
    requires !Next(st, tok).1.RError?
    ensures var (next, role) := Next(st, tok);
            var at := next.handler;
            var h := (k: nat) => Entity(EntityBase(parameter) + k);
            || (k == 0 && tok == Literal && at == DeclClose && next.roleNone == REntityNone && role == REntityValue)
            || (k == 0 && tok == Name("SYSTEM") && at == h(2) && role == REntityNone)
            || (k == 0 && tok == Name("PUBLIC") && at == h(1) && role == REntityNone)
            || (k == 1 && tok == Literal && at == h(2) && role == REntityPublicId)
            || (k == 2 && tok == Literal && at == h(3) && role == REntitySystemId)
            || (k == 3 && !parameter && tok == Name("NDATA") && at == h(4) && role == REntityNone)
            || (k == 3 && tok == DeclCloseTok && at == TopLevel(st.documentEntity) && role == REntityComplete)
            || (k == 4 && tok.Name? && at == DeclClose && next.roleNone == REntityNone && role == REntityNotationName)
  {
  }

  lemma {:induction false} EntityTailStep(parameter: bool, name: string, id: ExternalId, k: nat, line: Line, k': nat,
                                          id': ExternalId)
    requires k' <= 4
    requires || (k == 0 && k' == 2 && id' == System && line == Line(Name("SYSTEM"), REntityNone))
             || (k == 0 && k' == 1 && line == Line(Name("PUBLIC"), REntityNone))
             || (k == 1 && k' == 2 && id' == Public && line == Line(Literal, REntityPublicId))
             || (k == 2 && k' == 3 && id' == id && line == Line(Literal, REntitySystemId))
             || (k == 3 && k' == 4 && id' == id && line == Line(Name("NDATA"), REntityNone))
    ensures EntityHead(parameter, name) + EntityTail(k, id) + [line] == EntityHead(parameter, name) + EntityTail(k', id')
  {
    hide EntityHead;
    assert EntityTail(k, id) + [line] == EntityTail(k', id');
  }

  lemma {:induction false} EntityEnds(parameter: bool, name: string, d: Definition, lines: seq<Line>)
    requires Good(EntityDecl(parameter, name, d)) && lines == EntityHead(parameter, name) + DefinitionLines(d)
    ensures IsDeclaration(lines)
  {
    assert Lines(EntityDecl(parameter, name, d)) == lines;
  }

  lemma {:induction false} EntityNameStep(st: State, parameter: bool, k: nat, tok: Token, lines: seq<Line>, name: string,
                                          id: ExternalId)
    requires k <= 4 && (parameter ==> k <= 3) && st.handler == Entity(EntityBase(parameter) + k) && !Skipped(tok)
    requires lines == EntityHead(parameter, name) + EntityTail(k, id) && !Next(st, tok).1.RError?
    ensures Explained(Next(st, tok).0, lines + [Line(tok, Next(st, tok).1)])
  {
    hide EntityHead;
    hide EntityTail;
    hide IsDeclaration;
    EntityMoves(st, parameter, k, tok);
    hide Next;
    var next, line := Next(st, tok).0, Line(tok, Next(st, tok).1);
    if next.handler.Entity? {
      var k', id' := next.handler.i - EntityBase(parameter), if k == 0 then System else if k == 1 then Public else id;
      EntityTailStep(parameter, name, id, k, line, k', id');
      assert EntityAt(next.handler.i, lines + [line], name, id');
    } else {
      EntityFinish(parameter, name, id, k, lines, line);
      assert lines + [line] + [] == lines + [line];
    }
  }

  lemma {:induction false} EntityFinish(parameter: bool, name: string, id: ExternalId, k: nat, lines: seq<Line>, line: Line)
    requires lines == EntityHead(parameter, name) + EntityTail(k, id)
    requires || (k == 0 && line == Line(Literal, REntityValue))
             || (k == 3 && line == Line(DeclCloseTok, REntityComplete))
             || (k == 4 && !parameter && line.tok.Name? && line.role == REntityNotationName)
    ensures IsDeclaration(lines + [line] + if k == 3 then [] else [Line(DeclCloseTok, REntityNone)])
  {
    hide EntityHead;
    hide IsDeclaration;
    var head := EntityHead(parameter, name);
    var d := if k == 0 then Value else if k == 3 then External(id, Nothing) else External(id, Just(line.tok.text));
    EntityEnds(parameter, name, d, head + DefinitionLines(d));
    if k == 3 {
      assert lines + [line] + [] == head + DefinitionLines(d);
    } else {
      assert lines + [line] + [Line(DeclCloseTok, REntityNone)] == head + DefinitionLines(d);
    }
  }

  lemma {:induction false} EntityLineStep(st: State, i: nat, tok: Token, lines: seq<Line>)
    requires st.handler == Entity(i) && EntityPartial(i, lines) && !Skipped(tok) && !Next(st, tok).1.RError?
    ensures Explained(Next(st, tok).0, lines + [Line(tok, Next(st, tok).1)])
  {
    hide Next;
    if i <= 1 {
      EntityOpenStep(st, i, tok, lines);
    } else {
      var name, id :| EntityAt(i, lines, name, id);
      EntityNameStep(st, i >= 7, i - EntityBase(i >= 7), tok, lines, name, id);
    }
  }

  // ----- notations -----

  lemma {:induction false} NotationMoves(st: State, i: nat, tok: Token)
    requires st.handler == Notation(i) && !Skipped(tok) && !Next(st, tok).1.RError?
    ensures var (next, role) := Next(st, tok);
            var at := next.handler;
            || (i == 0 && tok.Name? && at == Notation(1) && role == RNotationName)
            || (i == 1 && tok == Name("SYSTEM") && at == Notation(3) && role == RNotationNone)
            || (i == 1 && tok == Name("PUBLIC") && at == Notation(2) && role == RNotationNone)
            || (i == 2 && tok == Literal && at == Notation(4) && role == RNotationPublicId)
            || ((i == 3 || i == 4) && tok == Literal && at == DeclClose && next.roleNone == RNotationNone
                && role == RNotationSystemId)
            || (i == 4 && tok == DeclCloseTok && at == TopLevel(st.documentEntity) && role == RNotationNoSystemId)
  {
  }

  lemma {:induction false} NotationEnds(name: string, id: NotationId, lines: seq<Line>)
    requires lines == NotationHead(name) + NotationLines(id)
    ensures IsDeclaration(lines)
  {
    assert Lines(NotationDecl(name, id)) == lines;
  }

  lemma {:induction false} NotationNameStep(st: State, i: nat, tok: Token, lines: seq<Line>, name: string)
    requires st.handler == Notation(i) && i >= 1 && !Skipped(tok) && !Next(st, tok).1.RError?
    requires NotationAt(i, lines, name)
    ensures Explained(Next(st, tok).0, lines + [Line(tok, Next(st, tok).1)])
  {
    hide IsDeclaration;
    NotationMoves(st, i, tok);
    hide Next;
    var next, line := Next(st, tok).0, Line(tok, Next(st, tok).1);
    if next.handler.Notation? {
      assert NotationAt(next.handler.i, lines + [line], name);
    } else {
      var id := if i == 3 then SystemOnly else if tok.Literal? then PublicAndSystem else PublicOnly;
      NotationEnds(name, id, NotationHead(name) + NotationLines(id));
      if tok.Literal? {
        assert lines + [line] + [Line(DeclCloseTok, RNotationNone)] == NotationHead(name) + NotationLines(id);
      } else {
        assert lines + [line] == NotationHead(name) + NotationLines(id);
      }
    }
  }

  lemma {:induction false} NotationLineStep(st: State, i: nat, tok: Token, lines: seq<Line>)
    requires st.handler == Notation(i) && NotationPartial(i, lines) && !Skipped(tok) && !Next(st, tok).1.RError?
    ensures Explained(Next(st, tok).0, lines + [Line(tok, Next(st, tok).1)])
  {
    if i == 0 {
      NotationMoves(st, i, tok);
      hide Next;
      var line := Line(tok, Next(st, tok).1);
      assert lines + [line] == NotationHead(tok.text) + [];
      assert NotationAt(1, lines + [line], tok.text);
    } else {
      hide Next;
      hide Explained;
      hide NotationAt;
      var name :| NotationAt(i, lines, name);
      NotationNameStep(st, i, tok, lines, name);
    }
  }

  // ----- attribute lists -----

  lemma {:induction false} AttlistMoves(st: State, i: nat, tok: Token)
    requires st.handler == Attlist(i) && !Skipped(tok) && !Next(st, tok).1.RError?
    ensures var (next, role) := Next(st, tok);
            var at := next.handler;
            || (i == 0 && IsNameToken(tok) && at == Attlist(1) && role == RAttlistElementName)
            || (i == 1 && IsNameToken(tok) && at == Attlist(2) && role == RAttributeName)
            || (i == 1 && tok == DeclCloseTok && at == TopLevel(st.documentEntity) && role == RAttlistNone)
            || (i == 2 && tok.Name? && GoodType(Keyword(tok.text)) && at == Attlist(8) && role == RAttributeType(tok.text))
            || (i == 2 && tok == Name("NOTATION") && at == Attlist(5) && role == RAttlistNone)
            || (i == 2 && tok == OpenParen && at == Attlist(3) && role == RAttlistNone)
            || (i == 5 && tok == OpenParen && at == Attlist(6) && role == RAttlistNone)
            || ((i == 3 || i == 6) && IsChoice(i == 6, tok) && at == Attlist(i + 1) && role == ChoiceRole(i == 6))
            || ((i == 4 || i == 7) && tok == Or && at == Attlist(i - 1) && role == RAttlistNone)
            || ((i == 4 || i == 7) && tok == CloseParen && at == Attlist(8) && role == RAttlistNone)
            || (i == 8 && at == Attlist(1) && exists d: DefaultDecl :: DefaultLines(d) == [Line(tok, role)])
            || (i == 8 && tok == PoundName("FIXED") && at == Attlist(9) && role == RAttlistNone)
            || (i == 9 && tok == Literal && at == Attlist(1) && role == RFixedAttributeValue)
  {
    assert DefaultLines(Implied) == [Line(PoundName("IMPLIED"), RImpliedAttributeValue)];
    assert DefaultLines(Required) == [Line(PoundName("REQUIRED"), RRequiredAttributeValue)];
    assert DefaultLines(Default) == [Line(Literal, RDefaultAttributeValue)];
  }

  lemma {:induction false} OneMoreAtt(element: Token, atts: seq<AttDef>, name: Token, t: AttType, d: DefaultDecl)
    requires IsNameToken(element) && GoodAtts(atts) && IsNameToken(name) && GoodType(t)
    ensures var more := atts + [AttDef(name, t, d)];
            GoodAtts(more) &&
            Named(element, atts, name) + TypeLines(t) + DefaultLines(d) == AttlistHead(element) + AttsLines(more)
  {
    hide TypeLines;
    hide DefaultLines;
    var a := AttDef(name, t, d);
    assert (atts + [a])[..|atts|] == atts;
    assert Named(element, atts, name) + TypeLines(t) + DefaultLines(d) ==
           AttlistHead(element) + (AttsLines(atts) + ([Line(name, RAttributeName)] + TypeLines(t) + DefaultLines(d)));
  }

  lemma {:induction false} OneMoreChoice(vs: seq<Token>, v: Token, role: Role)
    ensures Choices(vs + [v], role) == Barred(vs, role) + [Line(v, role)]
    ensures Barred(vs + [v], role) == Choices(vs + [v], role) + [Line(Or, RAttlistNone)]
  {
    assert (vs + [v])[..|vs|] == vs;
    assert Barred(vs, role) + [Line(v, role), Line(Or, RAttlistNone)] ==
           Barred(vs, role) + [Line(v, role)] + [Line(Or, RAttlistNone)];
  }

  /** One more choice, or the bar behind one. */
  lemma {:induction false} ChoiceStep(notation: bool, tail: seq<Line>, vs: seq<Token>, v: Token)
    requires (forall w | w in vs :: IsChoice(notation, w)) && IsChoice(notation, v)
    requires tail == TypeStart(notation) + Barred(vs, ChoiceRole(notation))
    ensures var more := vs + [v];
            && (forall w | w in more :: IsChoice(notation, w))
            && tail + [Line(v, ChoiceRole(notation))] == TypeStart(notation) + Choices(more, ChoiceRole(notation))
  {
    hide TypeStart;
    OneMoreChoice(vs, v, ChoiceRole(notation));
  }

  lemma {:induction false} BarStep(notation: bool, tail: seq<Line>, vs: seq<Token>)
    requires |vs| > 0 && tail == TypeStart(notation) + Choices(vs, ChoiceRole(notation))
    ensures tail + [Line(Or, RAttlistNone)] == TypeStart(notation) + Barred(vs, ChoiceRole(notation))
  {
    hide TypeStart;
    hide Choices;
    OneMoreChoice(vs[..|vs| - 1], vs[|vs| - 1], ChoiceRole(notation));
    assert vs[..|vs| - 1] + [vs[|vs| - 1]] == vs;
  }

  /** The list of choices or the type that a token behind the name of an attribute goes on with. */
  lemma {:induction false} TailStep(i: nat, tail: seq<Line>, vs: seq<Token>, t: AttType, line: Line, i': nat)
    returns (vs': seq<Token>, t': AttType)
    requires TailAt(i, tail, vs, t)
    requires || (i == 2 && line.tok.Name? && GoodType(Keyword(line.tok.text)) && i' == 8
                 && line.role == RAttributeType(line.tok.text))
             || (i == 2 && line == Line(Name("NOTATION"), RAttlistNone) && i' == 5)
             || (i == 2 && line == Line(OpenParen, RAttlistNone) && i' == 3)
             || (i == 5 && line == Line(OpenParen, RAttlistNone) && i' == 6)
             || ((i == 3 || i == 6) && IsChoice(i == 6, line.tok) && line.role == ChoiceRole(i == 6) && i' == i + 1)
             || ((i == 4 || i == 7) && line == Line(Or, RAttlistNone) && i' == i - 1)
             || ((i == 4 || i == 7) && line == Line(CloseParen, RAttlistNone) && i' == 8)
             || (i == 8 && line == Line(PoundName("FIXED"), RAttlistNone) && i' == 9)
    ensures TailAt(i', tail + [line], vs', t')
  {
    vs', t' := vs, t;
    if i == 3 || i == 6 {
      hide Barred;
      hide Choices;
      ChoiceStep(i == 6, tail, vs, line.tok);
      vs' := vs + [line.tok];
    } else if i == 4 || i == 7 {
      hide Barred;
      hide Choices;
      if i' == 8 {
        t' := if i == 4 then Enumeration(vs) else Notations(vs);
      } else {
        BarStep(i == 7, tail, vs);
      }
    } else if i == 2 && i' == 8 {
      t' := Keyword(line.tok.text);
    } else if i' == 3 || i' == 6 {
      vs' := [];
      assert TypeStart(i' == 6) + Barred([], ChoiceRole(i' == 6)) == tail + [line];
    }
  }

  lemma {:induction false} AttlistNamedStep(st: State, i: nat, tok: Token, lines: seq<Line>, p: Parts)
    requires st.handler == Attlist(i) && i >= 2 && !Skipped(tok) && !Next(st, tok).1.RError?
    requires AttlistAt(i, lines, p)
    ensures Explained(Next(st, tok).0, lines + [Line(tok, Next(st, tok).1)])
  {
    hide TailAt;
    hide Named;
    AttlistMoves(st, i, tok);
    hide Next;
    hide GoodType;
    var next, line := Next(st, tok).0, Line(tok, Next(st, tok).1);
    if next.handler == Attlist(1) {
      AttributeIsRead(i, lines, p, line);
    } else {
      var vs', t' := TailStep(i, p.tail, p.vs, p.t, line, next.handler.i);
      TailIsRead(i, next.handler.i, lines, p, line, vs', t');
    }
  }

  lemma {:induction false} TailIsRead(i: nat, i': nat, lines: seq<Line>, p: Parts, line: Line, vs': seq<Token>, t': AttType)
    requires i >= 2 && i' >= 2 && AttlistAt(i, lines, p)
    requires TailAt(i', p.tail + [line], vs', t')
    ensures AttlistPartial(i', lines + [line])
  {
    hide TailAt;
    hide Named;
    assert lines + [line] == Named(p.element, p.atts, p.name) + (p.tail + [line]);
    assert AttlistAt(i', lines + [line], p.(tail := p.tail + [line], vs := vs', t := t'));
  }

  lemma {:induction false} AttributeIsRead(i: nat, lines: seq<Line>, p: Parts, line: Line)
    requires (i == 8 || i == 9) && AttlistAt(i, lines, p)
    requires if i == 8 then exists d: DefaultDecl :: DefaultLines(d) == [line] else line == Line(Literal, RFixedAttributeValue)
    ensures AttlistPartial(1, lines + [line])
  {
    hide TailAt;
    hide Named;
    hide TypeLines;
    hide DefaultLines;
    hide GoodType;
    var d := AttributeEnds(i, p.tail, p.vs, p.t, line);
    OneMoreAtt(p.element, p.atts, p.name, p.t, d);
    var named := Named(p.element, p.atts, p.name);
    assert lines + [line] == named + (p.tail + [line]);
    assert named + TypeLines(p.t) + DefaultLines(d) == named + (TypeLines(p.t) + DefaultLines(d));
    assert AttlistBegun(lines + [line], p.element, p.atts + [AttDef(p.name, p.t, d)]);
  }

  /** The last token of an attribute gives its default. */
  lemma {:induction false} AttributeEnds(i: nat, tail: seq<Line>, vs: seq<Token>, t: AttType, line: Line)
    returns (d: DefaultDecl)
    requires TailAt(i, tail, vs, t) && (i == 8 || i == 9)
    requires if i == 8 then exists d: DefaultDecl :: DefaultLines(d) == [line] else line == Line(Literal, RFixedAttributeValue)
    ensures GoodType(t) && TypeLines(t) + DefaultLines(d) == tail + [line]
  {
    if i == 8 {
      d :| DefaultLines(d) == [line];
    } else {
      d := Fixed;
      assert DefaultLines(Fixed) == [Line(PoundName("FIXED"), RAttlistNone)] + [line];
      assert TypeLines(t) + DefaultLines(d) == TypeLines(t) + [Line(PoundName("FIXED"), RAttlistNone)] + [line];
    }
  }

  lemma {:induction false} AttlistOpenStep(st: State, tok: Token, lines: seq<Line>)
    requires st.handler == Attlist(0) && AttlistPartial(0, lines) && !Skipped(tok) && !Next(st, tok).1.RError?
    ensures Explained(Next(st, tok).0, lines + [Line(tok, Next(st, tok).1)])
  {
    AttlistMoves(st, 0, tok);
    hide Next;
    var line := Line(tok, Next(st, tok).1);
    assert lines + [line] == AttlistHead(tok) + AttsLines([]);
    assert AttlistBegun(lines + [line], tok, []);
  }

  lemma {:induction false} AttlistNextStep(st: State, tok: Token, lines: seq<Line>, element: Token, atts: seq<AttDef>)
    requires st.handler == Attlist(1) && !Skipped(tok) && !Next(st, tok).1.RError?
    requires AttlistBegun(lines, element, atts)
    ensures Explained(Next(st, tok).0, lines + [Line(tok, Next(st, tok).1)])
  {
    AttlistMoves(st, 1, tok);
    hide Next;
    hide GoodType;
    hide AttsLines;
    hide AttlistHead;
    var line := Line(tok, Next(st, tok).1);
    if tok.DeclCloseTok? {
      assert Lines(AttlistDecl(element, atts)) == lines + [line];
    } else {
      assert lines + [line] == Named(element, atts, tok) + [];
      assert AttlistAt(2, lines + [line], Parts(element, atts, tok, [], [], Keyword("")));
    }
  }

  lemma {:induction false} AttlistLineStep(st: State, i: nat, tok: Token, lines: seq<Line>)
    requires st.handler == Attlist(i) && AttlistPartial(i, lines) && !Skipped(tok) && !Next(st, tok).1.RError?
    ensures Explained(Next(st, tok).0, lines + [Line(tok, Next(st, tok).1)])
  {
    hide Next;
    hide Explained;
    hide AttlistAt;
    hide AttlistBegun;
    if i == 0 {
      AttlistOpenStep(st, tok, lines);
    } else if i == 1 {
      var element, atts :| AttlistBegun(lines, element, atts);
      AttlistNextStep(st, tok, lines, element, atts);
    } else {
      var p :| AttlistAt(i, lines, p);
      AttlistNamedStep(st, i, tok, lines, p);
    }
  }

  // ----- all declarations -----

  lemma {:induction false} CloseStep(st: State, tok: Token, lines: seq<Line>)
    requires st.handler.DeclClose? && Explained(st, lines) && !Skipped(tok) && !Next(st, tok).1.RError?
    requires !st.roleNone.RError?
    ensures Explained(Next(st, tok).0, lines + [Line(tok, Next(st, tok).1)])
  {
    hide IsDeclaration;
  }

  /** One more token keeps the lines the beginning of a declaration. */
  lemma {:induction false} LineStep(st: State, tok: Token, lines: seq<Line>)
    requires Declaring(st) && Explained(st, lines) && !Skipped(tok) && !Next(st, tok).1.RError?
    requires st.handler.DeclClose? ==> !st.roleNone.RError?
    ensures Explained(Next(st, tok).0, lines + [Line(tok, Next(st, tok).1)])
  {
    hide Next;
    match st.handler
    case Entity(i) => EntityLineStep(st, i, tok, lines);
    case Notation(i) => NotationLineStep(st, i, tok, lines);
    case Attlist(i) => AttlistLineStep(st, i, tok, lines);
    case DeclClose => CloseStep(st, tok, lines);
  }

  /** What is true of the state behind a token: no error is left for blanks, and an error is one. */
  predicate NoErrorBehind(next: (State, Role)) {
    && (next.0.handler.DeclClose? ==> !next.0.roleNone.RError?)
    && (next.1.RError? ==> next.0.handler.Error?)
  }

  lemma {:induction false} FollowsWithoutError(st: State, tok: Token, move: Move)
    requires !move.Stuck? ==> !move.role.RError?
    requires !st.handler.DeclClose? && (move.Go? ==> !move.to.DeclClose?)
    ensures NoErrorBehind(Follow(st, tok, move))
  {
  }

  lemma {:induction false} TablesReportNoError(i: nat, tok: Token)
    ensures !EntityMove(i, tok).Stuck? ==> !EntityMove(i, tok).role.RError?
    ensures !NotationMove(i, tok).Stuck? ==> !NotationMove(i, tok).role.RError?
    ensures EntityMove(i, tok).Go? ==> !EntityMove(i, tok).to.DeclClose?
    ensures NotationMove(i, tok).Go? ==> !NotationMove(i, tok).to.DeclClose?
  {
  }

  lemma {:induction false} AttlistReportsNoError(i: nat, tok: Token)
    ensures !AttlistMove(i, tok).Stuck? ==> !AttlistMove(i, tok).role.RError?
    ensures AttlistMove(i, tok).Go? ==> !AttlistMove(i, tok).to.DeclClose?
  {
  }

  /** The role left for blanks is never an error, nor does the machine go on from one. */
  lemma {:induction false} NoErrorIsLeft(st: State, tok: Token)
    requires Declaring(st) && NoErrorLeft(st)
    ensures NoErrorBehind(Next(st, tok))
  {
    hide EntityMove;
    hide NotationMove;
    hide AttlistMove;
    match st.handler
    case Entity(i) => TablesReportNoError(i, tok); FollowsWithoutError(st, tok, EntityMove(i, tok));
    case Notation(i) => TablesReportNoError(i, tok); FollowsWithoutError(st, tok, NotationMove(i, tok));
    case Attlist(i) => AttlistReportsNoError(i, tok); FollowsWithoutError(st, tok, AttlistMove(i, tok));
    case DeclClose =>
  }

  lemma {:induction false} LinesAppend(st: State, before: seq<Token>, tok: Token)
    ensures LinesOf(st, before + [tok]) ==
            LinesOf(st, before) + if Skipped(tok) then [] else [Line(tok, Next(Run(st, before), tok).1)]
    decreases |before|
  {
    hide Next;
    var all := before + [tok];
    if |before| == 0 {
      assert all[1..] == [];
    } else {
      assert all[1..] == before[1..] + [tok] && all[0] == before[0];
      RunFirst(st, before);
      LinesAppend(Next(st, before[0]).0, before[1..], tok);
    }
  }

  lemma {:induction false} CleanIsTokens(st: State, toks: seq<Token>)
    ensures TokensOf(LinesOf(st, toks)) == Clean(toks)
    decreases |toks|
  {
    hide Next;
    if |toks| > 0 {
      var next, role := Next(st, toks[0]).0, Next(st, toks[0]).1;
      CleanIsTokens(next, toks[1..]);
      var first := if Skipped(toks[0]) then [] else [Line(toks[0], role)];
      assert TokensOf(first + LinesOf(next, toks[1..])) == TokensOf(first) + TokensOf(LinesOf(next, toks[1..]));
    }
  }

  predicate NoErrorLeft(st: State) {
    st.handler.DeclClose? ==> !st.roleNone.RError?
  }

  /** Inside a declaration the lines read so far are its beginning. */
  lemma {:induction false} BeginningIsExplained(st: State, toks: seq<Token>, n: nat)
    requires AtSubset(st) && 1 <= n <= |toks| && Allowed(st, toks)
    requires toks[0].DeclOpen? && toks[0].text in ["ENTITY", "NOTATION", "ATTLIST"]
    requires forall k | 1 <= k < n :: Declaring(Run(st, toks[..k]))
    requires !Run(st, toks[..n]).handler.Error?
    ensures Explained(Run(st, toks[..n]), LinesOf(st, toks[..n])) && NoErrorLeft(Run(st, toks[..n]))
    ensures Run(st, toks[..n]).documentEntity == st.documentEntity
    decreases n
  {
    hide Next;
    hide Explained;
    var before, tok := toks[..n - 1], toks[n - 1];
    assert toks[..n] == before + [tok] && toks[..n][..n - 1] == before;
    LinesAppend(st, before, tok);
    var mid := Run(st, before);
    FollowKeeps(mid, tok);
    if n == 1 {
      assert before == [];
      OpeningIsExplained(st, tok);
    } else {
      BeginningIsExplained(st, toks, n - 1);
      if Skipped(tok) {
        SkippedChangesNothing(mid, tok);
        assert LinesOf(st, before) + [] == LinesOf(st, before);
      } else {
        NoErrorIsLeft(mid, tok);
        LineStep(mid, tok, LinesOf(st, before));
      }
    }
  }

  lemma {:induction false} OpeningIsExplained(st: State, tok: Token)
    requires AtSubset(st) && tok.DeclOpen? && tok.text in ["ENTITY", "NOTATION", "ATTLIST"]
    ensures Explained(Next(st, tok).0, [] + [Line(tok, Next(st, tok).1)]) && NoErrorLeft(Next(st, tok).0)
  {
    hide Next;
    OpeningIsRead(st, tok.text);
  }

  lemma {:induction false} FollowKeeps(st: State, tok: Token)
    ensures Next(st, tok).0.documentEntity == st.documentEntity
  {
    hide Next;
    IncludeGrowsByOne(st, tok);
  }

  /**
   * The machine accepts exactly the declarations: the tokens that take it from a subset through one
   * declaration of an entity, a notation or an attribute list, and back, are, blanks and parameter
   * entity references apart, the tokens of a declaration, and the roles reported are its roles.
   */
  lemma {:induction false} DeclaresExactly(st: State, toks: seq<Token>)
    requires AtSubset(st) && Allowed(st, toks) && |toks| > 0 && !Skipped(toks[0]) && !Skipped(toks[|toks| - 1])
    ensures Declares(st, toks) <==> exists d :: Good(d) && Clean(toks) == TokensOf(Lines(d))
    ensures forall d | Good(d) && Clean(toks) == TokensOf(Lines(d)) :: LinesOf(st, toks) == Lines(d)
  {
    hide Next;
    hide Lines;
    forall d | Good(d) && Clean(toks) == TokensOf(Lines(d))
      ensures Declares(st, toks) && LinesOf(st, toks) == Lines(d)
    {
      DeclarationIsReported(st, d, toks);
    }
    if Declares(st, toks) {
      assert toks[..|toks|] == toks;
      BeginningIsExplained(st, toks, |toks|);
      CleanIsTokens(st, toks);
      var d :| Good(d) && Lines(d) == LinesOf(st, toks);
    }
  }

  // ----- the prolog around the declarations -----

  /** What stands in a subset. */
  datatype Item = Instruction | Note | Reference | Declared(d: Declaration)

  datatype Doctype = Doctype(name: Token, id: Maybe<ExternalId>, subset: Maybe<seq<Item>>)

  /** A prolog: an XML declaration, then instructions and comments around a document type declaration. */
  datatype Document =
    Document(xmlDecl: bool, before: seq<Item>, doctype: Maybe<Doctype>, after: seq<Item>)

  predicate GoodItems(items: seq<Item>) {
    forall i | i in items :: i.Declared? ==> Good(i.d)
  }

  predicate GoodDoctype(d: Doctype) {
    IsNameToken(d.name) && (d.subset.Just? ==> GoodItems(d.subset.value))
  }

  predicate IsMisc(items: seq<Item>) {
    forall i | i in items :: i.Instruction? || i.Note?
  }

  predicate GoodDocument(d: Document) {
    IsMisc(d.before) && IsMisc(d.after) && (d.doctype.Just? ==> GoodDoctype(d.doctype.value))
  }

  function ItemLines(item: Item): seq<Line>
    requires item.Declared? ==> Good(item.d)
  {
    match item
    case Instruction => [Line(PI, RPi)]
    case Note => [Line(Comment, RComment)]
    case Reference => [Line(ParamEntityRef, RParamEntityRef)]
    case Declared(d) => Lines(d)
  }

  function ItemsLines(items: seq<Item>): seq<Line>
    requires GoodItems(items)
  {
    if |items| == 0 then [] else ItemsLines(items[..|items| - 1]) + ItemLines(items[|items| - 1])
  }

  function DoctypeIdLines(id: Maybe<ExternalId>): seq<Line> {
    match id
    case Nothing => []
    case Just(System) => [Line(Name("SYSTEM"), RDoctypeNone), Line(Literal, RDoctypeSystemId)]
    case Just(Public) =>
      [Line(Name("PUBLIC"), RDoctypeNone), Line(Literal, RDoctypePublicId), Line(Literal, RDoctypeSystemId)]
  }

  function SubsetLines(subset: Maybe<seq<Item>>): seq<Line>
    requires subset.Just? ==> GoodItems(subset.value)
  {
    if subset.Nothing? then []
    else [Line(OpenBracket, RDoctypeInternalSubset)] + ItemsLines(subset.value) + [Line(CloseBracket, RDoctypeNone)]
  }

  function DoctypeLines(d: Doctype): seq<Line>
    requires GoodDoctype(d)
  {
    [Line(DeclOpen("DOCTYPE"), RDoctypeNone), Line(d.name, RDoctypeName)] +
    DoctypeIdLines(d.id) + SubsetLines(d.subset) + [Line(DeclCloseTok, RDoctypeClose)]
  }

  /** Up to the start of the outermost element. */
  function DocumentLines(d: Document): seq<Line>
    requires GoodDocument(d)
  {
    (if d.xmlDecl then [Line(XmlDecl, RXmlDecl)] else []) +
    ItemsLines(d.before) + (if d.doctype.Just? then DoctypeLines(d.doctype.value) else []) +
    ItemsLines(d.after) + [Line(InstanceStart, RInstanceStart)]
  }

  /** Equal but for what declarations leave in roleNone. */
  predicate Alike(a: State, b: State) {
    a == b.(roleNone := a.roleNone)
  }

  lemma {:induction false} ItemIsRead(st: State, item: Item) returns (end: State)
    requires st.handler == InternalSubset && st.documentEntity && (item.Declared? ==> Good(item.d))
    ensures Reports(st, ItemLines(item), end) && Alike(end, st)
  {
    end := st;
    if item.Declared? {
      DeclarationIsRead(st, item.d);
      end := Behind(st, NoneLeft(st, item.d));
    } else {
      assert Next(st, PI) == (st, RPi) && Next(st, Comment) == (st, RComment);
      assert Next(st, ParamEntityRef) == (st, RParamEntityRef);
      hide Next;
      ReportsOne(st, ItemLines(item)[0]);
    }
  }

  lemma {:induction false} ItemsAreRead(st: State, items: seq<Item>) returns (end: State)
    requires st.handler == InternalSubset && st.documentEntity && GoodItems(items)
    ensures Reports(st, ItemsLines(items), end) && Alike(end, st)
    decreases |items|
  {
    hide Next;
    end := st;
    if |items| > 0 {
      var before, item := items[..|items| - 1], items[|items| - 1];
      var mid := ItemsAreRead(st, before);
      end := ItemIsRead(mid, item);
      ReportsThen(st, ItemsLines(before), mid, ItemLines(item), end);
    }
  }

  lemma {:induction false} MiscIsRead(st: State, i: nat, items: seq<Item>) returns (end: State)
    requires st.handler == Handler.Prolog(i) && IsMisc(items)
    ensures Reports(st, ItemsLines(items), end)
    ensures end == if items == [] then st else At(st, Handler.Prolog(if i == 0 then 1 else i))
    decreases |items|
  {
    end := st;
    if |items| > 0 {
      var before, item := items[..|items| - 1], items[|items| - 1];
      assert item in items;
      var mid := MiscIsRead(st, i, before);
      end := At(st, Handler.Prolog(if i == 0 then 1 else i));
      assert Next(mid, PI) == (end, RPi) && Next(mid, Comment) == (end, RComment);
      hide Next;
      ReportsOne(mid, ItemLines(item)[0]);
      ReportsThen(st, ItemsLines(before), mid, ItemLines(item), end);
    }
  }

  lemma {:induction false} DoctypeMoves(st: State, i: nat, name: Token)
    requires st.handler == Handler.Prolog(i) && i != 2 && IsNameToken(name)
    ensures Next(st, DeclOpen("DOCTYPE")) == (At(st, Handler.Doctype(0)), RDoctypeNone)
    ensures Next(At(st, Handler.Doctype(0)), name) == (At(st, Handler.Doctype(1)), RDoctypeName)
    ensures Next(At(st, Handler.Doctype(1)), Name("SYSTEM")) == (At(st, Handler.Doctype(3)), RDoctypeNone)
    ensures Next(At(st, Handler.Doctype(1)), Name("PUBLIC")) == (At(st, Handler.Doctype(2)), RDoctypeNone)
    ensures Next(At(st, Handler.Doctype(2)), Literal) == (At(st, Handler.Doctype(3)), RDoctypePublicId)
    ensures Next(At(st, Handler.Doctype(3)), Literal) == (At(st, Handler.Doctype(4)), RDoctypeSystemId)
  {
  }

  lemma {:induction false} DoctypeCloses(st: State, i: nat)
    requires st.handler == Handler.Doctype(i) && i in {1, 4, 5}
    ensures i != 5 ==> Next(st, OpenBracket) == (At(st, InternalSubset), RDoctypeInternalSubset)
    ensures Next(At(st, InternalSubset), CloseBracket) == (At(st, Handler.Doctype(5)), RDoctypeNone)
    ensures Next(st, DeclCloseTok) == (At(st, Handler.Prolog(2)), RDoctypeClose)
  {
  }

  lemma {:induction false} DoctypeIdIsRead(st: State, i: nat, name: Token, id: Maybe<ExternalId>) returns (mid: State)
    requires st.handler == Handler.Prolog(i) && i != 2 && IsNameToken(name)
    ensures mid == At(st, Handler.Doctype(if id.Nothing? then 1 else 4))
    ensures Reports(st, [Line(DeclOpen("DOCTYPE"), RDoctypeNone), Line(name, RDoctypeName)] + DoctypeIdLines(id), mid)
  {
    DoctypeMoves(st, i, name);
    hide Next;
    hide Reports;
    var head, s := [Line(DeclOpen("DOCTYPE"), RDoctypeNone), Line(name, RDoctypeName)], At(st, Handler.Doctype(1));
    mid := At(st, Handler.Doctype(if id.Nothing? then 1 else 4));
    ReportsTwo(st, Line(DeclOpen("DOCTYPE"), RDoctypeNone), Line(name, RDoctypeName));
    if id.Nothing? {
      assert head + [] == head;
    } else {
      if id.value.System? {
        ReportsTwo(s, Line(Name("SYSTEM"), RDoctypeNone), Line(Literal, RDoctypeSystemId));
      } else {
        ReportsThree(s, Line(Name("PUBLIC"), RDoctypeNone), Line(Literal, RDoctypePublicId), Line(Literal, RDoctypeSystemId));
      }
      ReportsThen(st, head, s, DoctypeIdLines(id), mid);
    }
  }

  lemma {:induction false} BracketsAreRead(st: State, i: nat, items: seq<Item>) returns (mid: State)
    requires st.handler == Handler.Doctype(i) && i in {1, 4} && st.documentEntity && GoodItems(items)
    ensures mid.handler == InternalSubset && mid.documentEntity && Alike(mid, At(st, InternalSubset))
    ensures Reports(st, [Line(OpenBracket, RDoctypeInternalSubset)] + ItemsLines(items), mid)
  {
    DoctypeCloses(st, i);
    hide Next;
    hide Reports;
    hide ItemsLines;
    hide GoodItems;
    var inside := At(st, InternalSubset);
    ReportsOne(st, Line(OpenBracket, RDoctypeInternalSubset));
    mid := ItemsAreRead(inside, items);
    ReportsThen(st, [Line(OpenBracket, RDoctypeInternalSubset)], inside, ItemsLines(items), mid);
  }

  lemma {:induction false} SubsetCloses(st: State)
    requires st.handler == InternalSubset
    ensures Reports(st, [Line(CloseBracket, RDoctypeNone), Line(DeclCloseTok, RDoctypeClose)],
                    At(st, Handler.Prolog(2)))
  {
    DoctypeCloses(At(st, Handler.Doctype(4)), 4);
    DoctypeCloses(At(st, Handler.Doctype(5)), 5);
    hide Next;
    hide Reports;
    ReportsTwo(st, Line(CloseBracket, RDoctypeNone), Line(DeclCloseTok, RDoctypeClose));
  }

  lemma {:induction false} SubsetIsRead(st: State, i: nat, subset: Maybe<seq<Item>>) returns (end: State)
    requires st.handler == Handler.Doctype(i) && i in {1, 4} && st.documentEntity
    requires subset.Just? ==> GoodItems(subset.value)
    ensures Reports(st, SubsetLines(subset) + [Line(DeclCloseTok, RDoctypeClose)], end)
    ensures Alike(end, At(st, Handler.Prolog(2)))
  {
    var last := [Line(DeclCloseTok, RDoctypeClose)];
    if subset.Nothing? {
      DoctypeCloses(st, i);
      hide Next;
      hide Reports;
      end := At(st, Handler.Prolog(2));
      ReportsOne(st, Line(DeclCloseTok, RDoctypeClose));
      assert [] + last == last;
    } else {
      end := BracketedIsRead(st, i, subset.value);
    }
  }

  lemma {:induction false} BracketedIsRead(st: State, i: nat, items: seq<Item>) returns (end: State)
    requires st.handler == Handler.Doctype(i) && i in {1, 4} && st.documentEntity && GoodItems(items)
    ensures Reports(st, SubsetLines(Just(items)) + [Line(DeclCloseTok, RDoctypeClose)], end)
    ensures Alike(end, At(st, Handler.Prolog(2)))
  {
    hide Next;
    hide Reports;
    hide ItemsLines;
    hide GoodItems;
    var mid := BracketsAreRead(st, i, items);
    end := At(mid, Handler.Prolog(2));
    SubsetCloses(mid);
    var lines := [Line(OpenBracket, RDoctypeInternalSubset)] + ItemsLines(items);
    ReportsThen(st, lines, mid, [Line(CloseBracket, RDoctypeNone), Line(DeclCloseTok, RDoctypeClose)], end);
    TwoMore(lines, Line(CloseBracket, RDoctypeNone), Line(DeclCloseTok, RDoctypeClose));
  }

  lemma {:induction false} TwoMore(lines: seq<Line>, x: Line, y: Line)
    ensures lines + [x, y] == lines + [x] + [y]
  {
  }

  lemma {:induction false} DoctypeIsRead(st: State, i: nat, d: Doctype) returns (end: State)
    requires st.handler == Handler.Prolog(i) && i != 2 && st.documentEntity && GoodDoctype(d)
    ensures Reports(st, DoctypeLines(d), end) && Alike(end, At(st, Handler.Prolog(2)))
  {
    hide Next;
    hide Reports;
    hide SubsetLines;
    hide DoctypeIdLines;
    var head := [Line(DeclOpen("DOCTYPE"), RDoctypeNone), Line(d.name, RDoctypeName)] + DoctypeIdLines(d.id);
    var tail := SubsetLines(d.subset) + [Line(DeclCloseTok, RDoctypeClose)];
    var mid := DoctypeIdIsRead(st, i, d.name, d.id);
    end := SubsetIsRead(mid, if d.id.Nothing? then 1 else 4, d.subset);
    ReportsThen(st, head, mid, tail, end);
    assert head + tail == DoctypeLines(d);
  }

  lemma {:induction false} DocumentBegins(st: State, xmlDecl: bool) returns (mid: State)
    requires st.handler == Handler.Prolog(0)
    ensures mid == if xmlDecl then At(st, Handler.Prolog(1)) else st
    ensures Reports(st, if xmlDecl then [Line(XmlDecl, RXmlDecl)] else [], mid)
  {
    mid := st;
    if xmlDecl {
      assert Next(st, XmlDecl) == (At(st, Handler.Prolog(1)), RXmlDecl);
      hide Next;
      ReportsOne(st, Line(XmlDecl, RXmlDecl));
      mid := At(st, Handler.Prolog(1));
    }
  }

  lemma {:induction false} InstanceIsReported(st: State, i: nat)
    requires st.handler == Handler.Prolog(i)
    ensures Next(st, InstanceStart).1 == RInstanceStart
  {
  }

  /** From the start of a document the lines of its prolog are reported, up to its outermost element. */
  lemma {:induction false} DocumentIsRead(st: State, d: Document) returns (end: State)
    requires st.handler == Handler.Prolog(0) && st.documentEntity && GoodDocument(d)
    ensures Reports(st, DocumentLines(d), end)
  {
    hide Next;
    hide Reports;
    hide DoctypeLines;
    hide ItemsLines;
    var xml := if d.xmlDecl then [Line(XmlDecl, RXmlDecl)] else [];
    var s1 := DocumentBegins(st, d.xmlDecl);
    var s2 := MiscIsRead(s1, s1.handler.i, d.before);
    ReportsThen(st, xml, s1, ItemsLines(d.before), s2);
    var s3, doctype := s2, [];
    if d.doctype.Just? {
      s3 := DoctypeIsRead(s2, s2.handler.i, d.doctype.value);
      doctype := DoctypeLines(d.doctype.value);
    } else {
      NothingIsRead(s2);
    }
    ReportsThen(st, xml + ItemsLines(d.before), s2, doctype, s3);
    var s4 := MiscIsRead(s3, s3.handler.i, d.after);
    ReportsThen(st, xml + ItemsLines(d.before) + doctype, s3, ItemsLines(d.after), s4);
    InstanceIsReported(s4, s4.handler.i);
    end := Next(s4, InstanceStart).0;
    ReportsOne(s4, Line(InstanceStart, RInstanceStart));
    ReportsThen(st, xml + ItemsLines(d.before) + doctype + ItemsLines(d.after), s4, [Line(InstanceStart, RInstanceStart)], end);
  }

  lemma {:induction false} NothingIsRead(st: State)
    ensures Reports(st, [], st)
  {
  }
}
