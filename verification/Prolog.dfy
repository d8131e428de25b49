/** The state machine that gives every token of the prolog its role (xmlrole.c).

    Every handler is a table of the tokens it knows: where the machine goes and which role it
    reports.  PrologState is the structure the parser keeps and updates in place. */
module Prolog {

  /** The tokens of the prolog; names and keywords carry their text. */
  datatype Token =
    | S | XmlDecl | PI | Comment | BOM | InstanceStart | NoToken
    | DeclOpen(text: string) | DeclCloseTok | OpenBracket | CloseBracket
    | Name(text: string) | PrefixedName(text: string) | Nmtoken(text: string) | PoundName(text: string)
    | NameQuestion(text: string) | NameAsterisk(text: string) | NamePlus(text: string)
    | Literal | Percent | ParamEntityRef | Or | Comma
    | OpenParen | CloseParen | CloseParenQuestion | CloseParenAsterisk | CloseParenPlus
    | CondSectOpen | CondSectClose

  /** The handlers, numbered as in the source: Element(7) is element7. */
  datatype Handler =
    | Prolog(i: nat) | Doctype(i: nat) | InternalSubset
    | Entity(i: nat) | Notation(i: nat) | Attlist(i: nat) | Element(i: nat)
    | ExternalSubset(i: nat) | CondSect(i: nat)
    | DeclClose | Error

  datatype Role =
    | RError | RNone | RXmlDecl | RInstanceStart
    | RDoctypeNone | RDoctypeName | RDoctypeSystemId | RDoctypePublicId
    | RDoctypeInternalSubset | RDoctypeClose
    | RGeneralEntityName | RParamEntityName
    | REntityNone | REntityValue | REntitySystemId | REntityPublicId | REntityComplete
    | REntityNotationName
    | RNotationNone | RNotationName | RNotationSystemId | RNotationNoSystemId | RNotationPublicId
    | RAttributeName | RAttributeType(keyword: string) | RAttributeEnumValue | RAttributeNotationValue
    | RAttlistNone | RAttlistElementName | RImpliedAttributeValue | RRequiredAttributeValue
    | RDefaultAttributeValue | RFixedAttributeValue
    | RElementNone | RElementName | RContentAny | RContentEmpty | RContentPcdata
    | RGroupOpen | RGroupClose | RGroupCloseRep | RGroupCloseOpt | RGroupClosePlus
    | RGroupChoice | RGroupSequence
    | RContentElement | RContentElementRep | RContentElementOpt | RContentElementPlus
    | RPi | RComment | RTextDecl | RIgnoreSect | RInnerParamEntityRef | RParamEntityRef

  /** Unsigned counters of 32 bits wrap around. */
  const WRAP: nat := 0x1_0000_0000

  function Inc(x: nat): nat { if x + 1 >= 0x1_0000_0000 then 0 else x + 1 }
  function Dec(x: nat): nat { if x == 0 then 0xFFFF_FFFF else x - 1 }

  datatype State = State(
    handler: Handler, level: nat, roleNone: Role, includeLevel: nat, documentEntity: bool)

  /** A line of the table: the next handler and the role. */
  datatype Move =
    | Go(to: Handler, role: Role)
    | Top(role: Role)      // back to the subset the declaration stands in
    | Close(role: Role)    // only the end of the declaration may follow
    | Stuck                // no line for this token

  predicate IsAttributeType(t: string) {
    t in ["CDATA", "ID", "IDREF", "IDREFS", "ENTITY", "ENTITIES", "NMTOKEN", "NMTOKENS"]
  }

  function PrologMove(i: nat, tok: Token): Move {
    if tok.S? then Go(Prolog(if i == 0 then 1 else i), RNone)
    else if tok.PI? then Go(Prolog(if i == 0 then 1 else i), RPi)
    else if tok.Comment? then Go(Prolog(if i == 0 then 1 else i), RComment)
    else if tok.XmlDecl? && i == 0 then Go(Prolog(1), RXmlDecl)
    else if tok.BOM? && i != 2 then Go(Prolog(i), RNone)
    else if tok.DeclOpen? && i != 2 && tok.text == "DOCTYPE" then Go(Doctype(0), RDoctypeNone)
    else if tok.InstanceStart? then Go(Error, RInstanceStart)
    else Stuck
  }

  function DoctypeMove(i: nat, tok: Token): Move {
    if tok.S? then Go(Doctype(i), RDoctypeNone)
    else if i == 0 && (tok.Name? || tok.PrefixedName?) then Go(Doctype(1), RDoctypeName)
    else if i == 1 && tok.Name? && tok.text == "SYSTEM" then Go(Doctype(3), RDoctypeNone)
    else if i == 1 && tok.Name? && tok.text == "PUBLIC" then Go(Doctype(2), RDoctypeNone)
    else if i == 2 && tok.Literal? then Go(Doctype(3), RDoctypePublicId)
    else if i == 3 && tok.Literal? then Go(Doctype(4), RDoctypeSystemId)
    else if (i == 1 || i == 4) && tok.OpenBracket? then Go(InternalSubset, RDoctypeInternalSubset)
    else if (i == 1 || i == 4 || i == 5) && tok.DeclCloseTok? then Go(Prolog(2), RDoctypeClose)
    else Stuck
  }

  /** The declarations that may stand in either subset; h is the subset's own handler. */
  function SubsetMove(h: Handler, tok: Token): Move {
    if tok.S? then Go(h, RNone)
    else if tok.PI? then Go(h, RPi)
    else if tok.Comment? then Go(h, RComment)
    else if tok.ParamEntityRef? then Go(h, RParamEntityRef)
    else if tok.DeclOpen? && tok.text == "ENTITY" then Go(Entity(0), REntityNone)
    else if tok.DeclOpen? && tok.text == "ATTLIST" then Go(Attlist(0), RAttlistNone)
    else if tok.DeclOpen? && tok.text == "ELEMENT" then Go(Element(0), RElementNone)
    else if tok.DeclOpen? && tok.text == "NOTATION" then Go(Notation(0), RNotationNone)
    else if h.InternalSubset? && tok.CloseBracket? then Go(Doctype(5), RDoctypeNone)
    else Stuck
  }

  /** includeLevel is the number of open INCLUDE sections the handler is told about. */
  function ExternalSubsetMove(tok: Token, includeLevel: nat): Move {
    if tok.CondSectOpen? then Go(CondSect(0), RNone)
    else if tok.CondSectClose? && includeLevel != 0 then Go(ExternalSubset(1), RNone)
    else if tok.NoToken? && includeLevel == 0 then Go(ExternalSubset(1), RNone)
    else SubsetMove(ExternalSubset(1), tok)
  }

  function CondSectMove(i: nat, tok: Token): Move {
    if tok.S? then Go(CondSect(i), RNone)
    else if i == 0 && tok.Name? && tok.text == "INCLUDE" then Go(CondSect(1), RNone)
    else if i == 0 && tok.Name? && tok.text == "IGNORE" then Go(CondSect(2), RNone)
    else if i == 1 && tok.OpenBracket? then Go(ExternalSubset(1), RNone)
    else if i == 2 && tok.OpenBracket? then Go(ExternalSubset(1), RIgnoreSect)
    else Stuck
  }

  function EntityMove(i: nat, tok: Token): Move {
    if tok.S? then Go(Entity(i), REntityNone)
    else if i == 0 && tok.Percent? then Go(Entity(1), REntityNone)
    else if i == 0 && tok.Name? then Go(Entity(2), RGeneralEntityName)
    else if i == 1 && tok.Name? then Go(Entity(7), RParamEntityName)
    else if i == 2 && tok.Name? && tok.text == "SYSTEM" then Go(Entity(4), REntityNone)
    else if i == 2 && tok.Name? && tok.text == "PUBLIC" then Go(Entity(3), REntityNone)
    else if i == 3 && tok.Literal? then Go(Entity(4), REntityPublicId)
    else if i == 4 && tok.Literal? then Go(Entity(5), REntitySystemId)
    else if i == 5 && tok.Name? && tok.text == "NDATA" then Go(Entity(6), REntityNone)
    else if i == 6 && tok.Name? then Close(REntityNotationName)
    else if i == 7 && tok.Name? && tok.text == "SYSTEM" then Go(Entity(9), REntityNone)
    else if i == 7 && tok.Name? && tok.text == "PUBLIC" then Go(Entity(8), REntityNone)
    else if i == 8 && tok.Literal? then Go(Entity(9), REntityPublicId)
    else if i == 9 && tok.Literal? then Go(Entity(10), REntitySystemId)
    else if (i == 2 || i == 7) && tok.Literal? then Close(REntityValue)
    else if (i == 5 || i == 10) && tok.DeclCloseTok? then Top(REntityComplete)
    else Stuck
  }

  function NotationMove(i: nat, tok: Token): Move {
    if tok.S? then Go(Notation(i), RNotationNone)
    else if i == 0 && tok.Name? then Go(Notation(1), RNotationName)
    else if i == 1 && tok.Name? && tok.text == "SYSTEM" then Go(Notation(3), RNotationNone)
    else if i == 1 && tok.Name? && tok.text == "PUBLIC" then Go(Notation(2), RNotationNone)
    else if i == 2 && tok.Literal? then Go(Notation(4), RNotationPublicId)
    else if (i == 3 || i == 4) && tok.Literal? then Close(RNotationSystemId)
    else if i == 4 && tok.DeclCloseTok? then Top(RNotationNoSystemId)
    else Stuck
  }

  function AttlistMove(i: nat, tok: Token): Move {
    if tok.S? then Go(Attlist(i), RAttlistNone)
    else if i == 0 && (tok.Name? || tok.PrefixedName?) then Go(Attlist(1), RAttlistElementName)
    else if i == 1 && (tok.Name? || tok.PrefixedName?) then Go(Attlist(2), RAttributeName)
    else if i == 1 && tok.DeclCloseTok? then Top(RAttlistNone)
    else if i == 2 && tok.Name? && IsAttributeType(tok.text) then Go(Attlist(8), RAttributeType(tok.text))
    else if i == 2 && tok.Name? && tok.text == "NOTATION" then Go(Attlist(5), RAttlistNone)
    else if i == 2 && tok.OpenParen? then Go(Attlist(3), RAttlistNone)
    else if i == 3 && (tok.Nmtoken? || tok.Name? || tok.PrefixedName?) then Go(Attlist(4), RAttributeEnumValue)
    else if i == 4 && tok.Or? then Go(Attlist(3), RAttlistNone)
    else if i == 5 && tok.OpenParen? then Go(Attlist(6), RAttlistNone)
    else if i == 6 && tok.Name? then Go(Attlist(7), RAttributeNotationValue)
    else if i == 7 && tok.Or? then Go(Attlist(6), RAttlistNone)
    else if (i == 4 || i == 7) && tok.CloseParen? then Go(Attlist(8), RAttlistNone)
    else if i == 8 && tok.PoundName? && tok.text == "IMPLIED" then Go(Attlist(1), RImpliedAttributeValue)
    else if i == 8 && tok.PoundName? && tok.text == "REQUIRED" then Go(Attlist(1), RRequiredAttributeValue)
    else if i == 8 && tok.PoundName? && tok.text == "FIXED" then Go(Attlist(9), RAttlistNone)
    else if i == 8 && tok.Literal? then Go(Attlist(1), RDefaultAttributeValue)
    else if i == 9 && tok.Literal? then Go(Attlist(1), RFixedAttributeValue)
    else Stuck
  }

  /** level is the number of parentheses the handler is told are open, before the token. */
  function ElementMove(i: nat, tok: Token, level: nat): Move {
    if tok.S? then Go(Element(i), RElementNone)
    else if i == 0 && (tok.Name? || tok.PrefixedName?) then Go(Element(1), RElementName)
    else if i == 1 then
      (if tok.Name? && tok.text == "EMPTY" then Close(RContentEmpty)
       else if tok.Name? && tok.text == "ANY" then Close(RContentAny)
       else if tok.OpenParen? then Go(Element(2), RGroupOpen)
       else Stuck)
    else if i == 2 && tok.PoundName? && tok.text == "PCDATA" then Go(Element(3), RContentPcdata)
    else if i == 2 || i == 6 then
      (if tok.OpenParen? then Go(Element(6), RGroupOpen)
       else if tok.Name? || tok.PrefixedName? then Go(Element(7), RContentElement)
       else if tok.NameQuestion? then Go(Element(7), RContentElementOpt)
       else if tok.NameAsterisk? then Go(Element(7), RContentElementRep)
       else if tok.NamePlus? then Go(Element(7), RContentElementPlus)
       else Stuck)
    else if i == 3 && tok.CloseParen? then Close(RGroupClose)
    else if (i == 3 || i == 5) && tok.CloseParenAsterisk? then Close(RGroupCloseRep)
    else if (i == 3 || i == 5) && tok.Or? then Go(Element(4), RElementNone)
    else if i == 4 && (tok.Name? || tok.PrefixedName?) then Go(Element(5), RContentElement)
    else if i == 7 then
      (if tok.CloseParen? then EndGroup(level, RGroupClose)
       else if tok.CloseParenAsterisk? then EndGroup(level, RGroupCloseRep)
       else if tok.CloseParenQuestion? then EndGroup(level, RGroupCloseOpt)
       else if tok.CloseParenPlus? then EndGroup(level, RGroupClosePlus)
       else if tok.Comma? then Go(Element(6), RGroupSequence)
       else if tok.Or? then Go(Element(6), RGroupChoice)
       else Stuck)
    else Stuck
  }

  function EndGroup(level: nat, role: Role): Move {
    if level == 1 then Close(role) else Go(Element(7), role)
  }

  predicate ClosesGroup(tok: Token) {
    tok.CloseParen? || tok.CloseParenQuestion? || tok.CloseParenAsterisk? || tok.CloseParenPlus?
  }

  function NextLevel(i: nat, tok: Token, level: nat): nat {
    if i == 1 && tok.OpenParen? then 1
    else if i == 2 && tok.OpenParen? then 2
    else if i == 6 && tok.OpenParen? then Inc(level)
    else if i == 7 && ClosesGroup(tok) then Dec(level)
    else level
  }

  /** What a blank means until the declaration ends. */
  function NoneRole(h: Handler): Role {
    if h.Entity? then REntityNone else if h.Notation? then RNotationNone else RElementNone
  }

  function TopLevel(documentEntity: bool): Handler {
    if documentEntity then InternalSubset else ExternalSubset(1)
  }

  /** What a line of the table does to the state. */
  function Follow(st: State, tok: Token, move: Move): (State, Role) {
    match move
    case Go(h, role) => (st.(handler := h), role)
    case Top(role) => (st.(handler := TopLevel(st.documentEntity)), role)
    case Close(role) => (st.(handler := DeclClose, roleNone := NoneRole(st.handler)), role)
    case Stuck =>
      if !st.documentEntity && tok.ParamEntityRef? then (st, RInnerParamEntityRef)
      else (st.(handler := Error), RError)
  }

  /** One token: the new state and the token's role. */
  function Next(st: State, tok: Token): (State, Role) {
    match st.handler
    case Prolog(i) => Follow(st, tok, PrologMove(i, tok))
    case Doctype(i) => Follow(st, tok, DoctypeMove(i, tok))
    case InternalSubset => Follow(st, tok, SubsetMove(InternalSubset, tok))
    case ExternalSubset(i) =>
      if i == 0 && tok.XmlDecl? then (st.(handler := ExternalSubset(1)), RTextDecl)
      else
        var closes := tok.CondSectClose? && st.includeLevel != 0;
        Follow(st.(handler := ExternalSubset(1),
                   includeLevel := if closes then Dec(st.includeLevel) else st.includeLevel),
               tok, ExternalSubsetMove(tok, st.includeLevel))
    case CondSect(i) =>
      var opens := i == 1 && tok.OpenBracket?;
      Follow(st.(includeLevel := if opens then Inc(st.includeLevel) else st.includeLevel), tok, CondSectMove(i, tok))
    case Entity(i) => Follow(st, tok, EntityMove(i, tok))
    case Notation(i) => Follow(st, tok, NotationMove(i, tok))
    case Attlist(i) => Follow(st, tok, AttlistMove(i, tok))
    case Element(i) => Follow(st.(level := NextLevel(i, tok, st.level)), tok, ElementMove(i, tok, st.level))
    case DeclClose =>
      Follow(st, tok,
             if tok.S? then Go(DeclClose, st.roleNone)
             else if tok.DeclCloseTok? then Top(st.roleNone) else Stuck)
    case Error => (st, RNone)
  }

  /** The structure that the parser keeps and updates with every token. */
  class PrologState {
    var handler: Handler
    var level: nat
    var roleNone: Role
    var includeLevel: nat
    var documentEntity: bool

    ghost function View(): State
      reads this
    {
      State(handler, level, roleNone, includeLevel, documentEntity)
    }

    constructor ()
      ensures handler == Prolog(0) && documentEntity && includeLevel == 0
    {
      handler := Prolog(0);
      documentEntity := true;
      includeLevel := 0;
      level := 0;
      roleNone := RNone;
    }

    method InitExternalEntity()
      modifies this
      ensures View() == old(View()).(handler := ExternalSubset(0), documentEntity := false, includeLevel := 0)
    {
      handler := ExternalSubset(0);
      documentEntity := false;
      includeLevel := 0;
    }

    /** Calls the current handler. */
    method TokenRole(tok: Token) returns (role: Role)
      modifies this
      ensures (View(), role) == Next(old(View()), tok)
    {
      match handler {
        case Prolog(i) => role := Take(tok, PrologMove(i, tok));
        case Doctype(i) => role := Take(tok, DoctypeMove(i, tok));
        case InternalSubset => role := Take(tok, SubsetMove(InternalSubset, tok));
        case ExternalSubset(i) => role := InExternalSubset(i, tok);
        case CondSect(i) => role := InCondSect(i, tok);
        case Entity(i) => role := Take(tok, EntityMove(i, tok));
        case Notation(i) => role := Take(tok, NotationMove(i, tok));
        case Attlist(i) => role := Take(tok, AttlistMove(i, tok));
        case Element(i) => role := InElement(i, tok);
        case DeclClose =>
          role := Take(tok, if tok.S? then Go(DeclClose, roleNone)
                            else if tok.DeclCloseTok? then Top(roleNone) else Stuck);
        case Error => role := RNone;
      }
    }

    method InExternalSubset(i: nat, tok: Token) returns (role: Role)
      requires handler == ExternalSubset(i)
      modifies this
      ensures (View(), role) == Next(old(View()), tok)
    {
      handler := ExternalSubset(1);
      if i == 0 && tok.XmlDecl? {
        return RTextDecl;
      }
      var move := ExternalSubsetMove(tok, includeLevel);
      if tok.CondSectClose? && includeLevel != 0 {
        includeLevel := Dec(includeLevel);
      }
      role := Take(tok, move);
    }

    method InCondSect(i: nat, tok: Token) returns (role: Role)
      requires handler == CondSect(i)
      modifies this
      ensures (View(), role) == Next(old(View()), tok)
    {
      if i == 1 && tok.OpenBracket? {
        includeLevel := Inc(includeLevel);
      }
      role := Take(tok, CondSectMove(i, tok));
    }

    method InElement(i: nat, tok: Token) returns (role: Role)
      requires handler == Element(i)
      modifies this
      ensures (View(), role) == Next(old(View()), tok)
    {
      var move := ElementMove(i, tok, level);
      level := NextLevel(i, tok, level);
      role := Take(tok, move);
    }

    method Take(tok: Token, move: Move) returns (role: Role)
      modifies this
      ensures (View(), role) == Follow(old(View()), tok, move)
    {
      if move.Go? {
        handler := move.to;
        return move.role;
      } else if move.Top? {
        handler := TopLevel(documentEntity);
        return move.role;
      } else if move.Close? {
        handler, roleNone := DeclClose, NoneRole(handler);
        return move.role;
      } else if !documentEntity && tok.ParamEntityRef? {
        return RInnerParamEntityRef;
      } else {
        handler := Error;
        return RError;
      }
    }
  }
}

/** What every run of the prolog machine keeps. */
module PrologRuns {
  import opened Prolog

  function DocumentStart(level: nat, roleNone: Role): State {
    State(Prolog(0), level, roleNone, 0, true)
  }

  function ExternalStart(level: nat, roleNone: Role): State {
    State(ExternalSubset(0), level, roleNone, 0, false)
  }

  function Run(st: State, toks: seq<Token>): State {
    if toks == [] then st else Next(Run(st, toks[..|toks| - 1]), toks[|toks| - 1]).0
  }

  /** The roles reported along a run. */
  function Roles(st: State, toks: seq<Token>): seq<Role> {
    if toks == [] then []
    else Roles(st, toks[..|toks| - 1]) + [Next(Run(st, toks[..|toks| - 1]), toks[|toks| - 1]).1]
  }

  predicate ClosingRole(role: Role) {
    role.RGroupClose? || role.RGroupCloseRep? || role.RGroupCloseOpt? || role.RGroupClosePlus?
  }

  function GroupChange(role: Role): int {
    if role.RGroupOpen? then 1 else if ClosingRole(role) then -1 else 0
  }

  /** The groups that the reported roles opened and did not close. */
  function OpenGroups(roles: seq<Role>): int {
    if roles == [] then 0
    else OpenGroups(roles[..|roles| - 1]) + GroupChange(roles[|roles| - 1])
  }

  predicate Significant(tok: Token) { !tok.S? && !tok.ParamEntityRef? }

  /** The last token that is neither a blank nor a parameter entity reference. */
  function LastSignificant(toks: seq<Token>): Token {
    if toks == [] then S
    else if Significant(toks[|toks| - 1]) then toks[|toks| - 1]
    else LastSignificant(toks[..|toks| - 1])
  }

  /** The INCLUDE sections that the tokens open and do not close. */
  function OpenIncludes(toks: seq<Token>): int {
    if toks == [] then 0
    else
      var before, last := toks[..|toks| - 1], toks[|toks| - 1];
      OpenIncludes(before) +
      (if last.OpenBracket? && LastSignificant(before) == Name("INCLUDE") then 1
       else if last.CondSectClose? then -1 else 0)
  }

  predicate InGroup(h: Handler) { h.Element? && (h.i == 2 || h.i >= 6) }

  predicate InMixed(h: Handler) { h.Element? && 3 <= h.i <= 5 }

  predicate OnlyInDocument(h: Handler) { h.Prolog? || h.Doctype? || h.InternalSubset? }

  predicate OnlyInExternal(h: Handler) { h.ExternalSubset? || h.CondSect? }

  /** The machine's level agrees with the number of groups that the roles left open. */
  predicate LevelFits(h: Handler, level: nat, groups: int) {
    if InGroup(h) || InMixed(h) then level == groups && groups >= 1 && (h.i <= 5 ==> groups == 1)
    else groups == 0
  }

  /** What the element handlers do to the open groups. */
  predicate ElementShape(i: nat, tok: Token, level: nat, move: Move) {
    match move
    case Go(to, role) =>
      && to.Element?
      && (if role.RGroupOpen? then
            tok.OpenParen? && ((i == 1 && to.i == 2) || ((i == 2 || i == 6) && to.i == 6))
          else if ClosingRole(role) then
            i == 7 && to.i == 7 && ClosesGroup(tok) && level != 1
          else
            && !(tok.OpenParen? && (i == 1 || i == 2 || i == 6))
            && !(i == 7 && ClosesGroup(tok))
            && (i <= 1 <==> to.i <= 1)
            && (2 <= i <= 5 ==> 2 <= to.i <= 5 || (i == 2 && to.i == 7))
            && (i >= 6 ==> to.i >= 6))
    case Close(role) =>
      if ClosingRole(role) then 3 <= i <= 5 || (i == 7 && ClosesGroup(tok) && level == 1)
      else i == 1 && !role.RGroupOpen?
    case Top(_) => false
    case Stuck => true
  }

  lemma {:induction false} ElementIgnoresSections(i: nat, tok: Token, level: nat)
    requires tok.OpenBracket? || tok.CondSectClose?
    ensures ElementMove(i, tok, level).Stuck?
  {
  }

  lemma {:induction false} ElementMoveShape(i: nat, tok: Token, level: nat)
    ensures ElementShape(i, tok, level, ElementMove(i, tok, level))
  {
  }

  lemma {:induction false} ElementLevel(i: nat, tok: Token, level: nat, move: Move, groups: int)
    requires LevelFits(Element(i), level, groups) && groups + 1 < WRAP
    requires ElementShape(i, tok, level, move)
    ensures move.Go? ==> LevelFits(move.to, NextLevel(i, tok, level), groups + GroupChange(move.role))
    ensures move.Close? ==> groups + GroupChange(move.role) == 0
  {
  }

  /** The machine's includeLevel agrees with the sections that the tokens left open, and the two kinds
      of entity keep to their own handlers. */
  predicate SubsetFits(st: State, includes: int, last: Token) {
    if st.documentEntity then
      st.includeLevel == 0 && !OnlyInExternal(st.handler)
    else
      && !OnlyInDocument(st.handler)
      && st.includeLevel == includes
      && (st.handler == CondSect(1) ==> last.Name? && last.text == "INCLUDE")
      && (st.handler == CondSect(2) ==> last.Name? && last.text == "IGNORE")
  }

  /** groups, includes and last summarise the history of the run. */
  predicate Consistent(st: State, groups: int, includes: int, last: Token) {
    !st.handler.Error? ==> LevelFits(st.handler, st.level, groups) && SubsetFits(st, includes, last)
  }

  function IncludeChange(tok: Token, last: Token): int {
    if tok.OpenBracket? && last.Name? && last.text == "INCLUDE" then 1
    else if tok.CondSectClose? then -1 else 0
  }

  /** Consistency after a step, given the history before it. */
  predicate StaysConsistent(next: (State, Role), tok: Token, groups: int, includes: int, last: Token) {
    Consistent(next.0, groups + GroupChange(next.1), includes + IncludeChange(tok, last),
               if Significant(tok) then tok else last)
  }

  /** The part of a move that counts. */
  lemma {:induction false} LevelFollows(st: State, tok: Token, move: Move, groups: int)
    requires move.Go? ==> LevelFits(move.to, st.level, groups + GroupChange(move.role))
    requires move.Top? || move.Close? ==> groups + GroupChange(move.role) == 0
    requires move.Stuck? && !st.documentEntity && tok.ParamEntityRef? ==> LevelFits(st.handler, st.level, groups)
    ensures var (st', role) := Follow(st, tok, move);
            !st'.handler.Error? ==> LevelFits(st'.handler, st'.level, groups + GroupChange(role))
  {
  }

  /** The part of a move that stays in its entity; st has its sections counted already. */
  lemma {:induction false} SubsetFollows(st: State, tok: Token, move: Move, includes: int, last: Token)
    requires !move.Stuck? ==> if st.documentEntity then st.includeLevel == 0 else st.includeLevel == includes
    requires move.Go? && !move.to.Error? ==> SubsetFits(st.(handler := move.to), includes, last)
    requires move.Stuck? && !st.documentEntity && tok.ParamEntityRef? ==> SubsetFits(st, includes, last)
    ensures var st' := Follow(st, tok, move).0;
            !st'.handler.Error? ==> SubsetFits(st', includes, last)
  {
  }

  lemma {:induction false} ElementStep(st: State, i: nat, tok: Token, groups: int, includes: int, last: Token)
    requires st.handler == Element(i) && Consistent(st, groups, includes, last) && groups + 1 < WRAP
    ensures StaysConsistent(Next(st, tok), tok, groups, includes, last)
  {
    ElementMoveShape(i, tok, st.level);
    if tok.OpenBracket? || tok.CondSectClose? {
      ElementIgnoresSections(i, tok, st.level);
    }
    var move := ElementMove(i, tok, st.level);
    ElementLevel(i, tok, st.level, move, groups);
    var st1 := st.(level := NextLevel(i, tok, st.level));
    LevelFollows(st1, tok, move, groups);
    SubsetFollows(st1, tok, move, includes + IncludeChange(tok, last), if Significant(tok) then tok else last);
  }

  /** A move that has nothing to do with groups or sections and stays among the handlers of its entity. */
  predicate QuietMove(h: Handler, tok: Token, move: Move) {
    && (!move.Stuck? ==> GroupChange(move.role) == 0)
    && (move.Go? ==>
          && !InGroup(move.to) && !InMixed(move.to) && !move.to.DeclClose?
          && (OnlyInDocument(move.to) ==> OnlyInDocument(h))
          && (OnlyInExternal(move.to) ==> h == ExternalSubset(1) && move.to == ExternalSubset(1)))
    && (!OnlyInDocument(h) && (tok.OpenBracket? || tok.CondSectClose?) ==> move.Stuck?)
  }

  lemma {:induction false} DocumentTablesAreQuiet(i: nat, tok: Token)
    ensures QuietMove(Prolog(i), tok, PrologMove(i, tok))
    ensures QuietMove(Doctype(i), tok, DoctypeMove(i, tok))
  {
  }

  lemma {:induction false} SubsetTableIsQuiet(h: Handler, tok: Token)
    requires h == InternalSubset || h == ExternalSubset(1)
    ensures QuietMove(h, tok, SubsetMove(h, tok))
  {
  }

  lemma {:induction false} NotationTableIsQuiet(i: nat, tok: Token)
    ensures QuietMove(Notation(i), tok, NotationMove(i, tok))
  {
  }

  lemma {:induction false} EntityTableIsQuiet(i: nat, tok: Token)
    ensures QuietMove(Entity(i), tok, EntityMove(i, tok))
  {
  }

  lemma {:induction false} AttlistTableIsQuiet(i: nat, tok: Token)
    ensures QuietMove(Attlist(i), tok, AttlistMove(i, tok))
  {
  }

  lemma {:induction false} QuietLevel(st: State, tok: Token, move: Move, groups: int)
    requires !st.handler.Element? && LevelFits(st.handler, st.level, groups)
    requires QuietMove(st.handler, tok, move)
    ensures var (st', role) := Follow(st, tok, move);
            !st'.handler.Error? ==> LevelFits(st'.handler, st'.level, groups + GroupChange(role))
  {
    LevelFollows(st, tok, move, groups);
  }

  lemma {:induction false} QuietSubset(st: State, tok: Token, move: Move, includes: int, last: Token)
    requires !st.handler.CondSect? && SubsetFits(st, includes, last)
    requires QuietMove(st.handler, tok, move)
    requires st.handler.ExternalSubset? ==> st.handler == ExternalSubset(1)
    ensures var st' := Follow(st, tok, move).0;
            !st'.handler.Error? ==>
              SubsetFits(st', includes + IncludeChange(tok, last), if Significant(tok) then tok else last)
  {
    SubsetFollows(st, tok, move, includes + IncludeChange(tok, last), if Significant(tok) then tok else last);
  }

  lemma {:induction false} QuietFollows(st: State, tok: Token, move: Move, groups: int, includes: int, last: Token)
    requires !st.handler.Element? && !st.handler.CondSect? && !st.handler.Error?
    requires Consistent(st, groups, includes, last)
    requires QuietMove(st.handler, tok, move)
    requires st.handler.ExternalSubset? ==> st.handler == ExternalSubset(1)
    ensures StaysConsistent(Follow(st, tok, move), tok, groups, includes, last)
  {
    QuietLevel(st, tok, move, groups);
    QuietSubset(st, tok, move, includes, last);
  }

  lemma {:induction false} ExternalSubsetStep(st: State, i: nat, tok: Token, groups: int, includes: int, last: Token)
    requires st.handler == ExternalSubset(i) && Consistent(st, groups, includes, last)
    ensures StaysConsistent(Next(st, tok), tok, groups, includes, last)
  {
    var st1 := st.(handler := ExternalSubset(1));
    if tok.CondSectClose? && st.includeLevel != 0 {
      assert ExternalSubsetMove(tok, st.includeLevel) == Go(ExternalSubset(1), RNone);
    } else if !(i == 0 && tok.XmlDecl?) {
      ExternalTableIsQuiet(tok, st.includeLevel);
      QuietOutside(st1, tok, ExternalSubsetMove(tok, st.includeLevel), groups, includes, last);
    }
  }

  /** Like QuietMove, but a conditional section may be opened. */
  predicate OutsideMove(tok: Token, move: Move) {
    && (!move.Stuck? ==> GroupChange(move.role) == 0)
    && (move.Go? ==>
          && !InGroup(move.to) && !InMixed(move.to) && !OnlyInDocument(move.to) && !move.to.DeclClose?
          && (move.to.CondSect? ==> move.to == CondSect(0)))
    && (tok.OpenBracket? || tok.CondSectClose? ==> move.Stuck?)
  }

  lemma {:induction false} ExternalTableIsQuiet(tok: Token, includeLevel: nat)
    requires !(tok.CondSectClose? && includeLevel != 0)
    ensures OutsideMove(tok, ExternalSubsetMove(tok, includeLevel))
  {
  }

  lemma {:induction false} QuietOutside(st: State, tok: Token, move: Move, groups: int, includes: int, last: Token)
    requires st.handler == ExternalSubset(1) && Consistent(st, groups, includes, last) && OutsideMove(tok, move)
    ensures StaysConsistent(Follow(st, tok, move), tok, groups, includes, last)
  {
    LevelFollows(st, tok, move, groups);
    SubsetFollows(st, tok, move, includes + IncludeChange(tok, last), if Significant(tok) then tok else last);
  }

  lemma {:induction false} CondSectStep(st: State, i: nat, tok: Token, groups: int, includes: int, last: Token)
    requires st.handler == CondSect(i) && Consistent(st, groups, includes, last)
    requires st.includeLevel + 1 < WRAP
    ensures StaysConsistent(Next(st, tok), tok, groups, includes, last)
  {
    var move := CondSectMove(i, tok);
    var opens := i == 1 && tok.OpenBracket?;
    var st1 := st.(includeLevel := if opens then Inc(st.includeLevel) else st.includeLevel);
    LevelFollows(st1, tok, move, groups);
    SubsetFollows(st1, tok, move, includes + IncludeChange(tok, last), if Significant(tok) then tok else last);
  }

  lemma {:induction false} DeclCloseStep(st: State, tok: Token, groups: int, includes: int, last: Token)
    requires st.handler.DeclClose? && Consistent(st, groups, includes, last)
    requires GroupChange(st.roleNone) == 0
    ensures StaysConsistent(Next(st, tok), tok, groups, includes, last)
  {
    var move := if tok.S? then Go(DeclClose, st.roleNone) else if tok.DeclCloseTok? then Top(st.roleNone) else Stuck;
    LevelFollows(st, tok, move, groups);
    SubsetFollows(st, tok, move, includes + IncludeChange(tok, last), if Significant(tok) then tok else last);
  }

  predicate QuietNone(st: State) {
    st.handler.DeclClose? ==> GroupChange(st.roleNone) == 0
  }

  lemma {:induction false} OnlyCloseWaits(st: State, tok: Token, move: Move)
    requires QuietNone(st)
    requires move.Go? && move.to.DeclClose? ==> st.handler.DeclClose?
    ensures QuietNone(Follow(st, tok, move).0)
  {
  }

  lemma {:induction false} NoneStaysQuiet(st: State, tok: Token)
    requires QuietNone(st)
    ensures QuietNone(Next(st, tok).0)
  {
    match st.handler
    case Prolog(i) => DocumentTablesAreQuiet(i, tok); OnlyCloseWaits(st, tok, PrologMove(i, tok));
    case Doctype(i) => DocumentTablesAreQuiet(i, tok); OnlyCloseWaits(st, tok, DoctypeMove(i, tok));
    case InternalSubset =>
      SubsetTableIsQuiet(InternalSubset, tok);
      OnlyCloseWaits(st, tok, SubsetMove(InternalSubset, tok));
    case ExternalSubset(i) => ExternalStaysQuiet(st, i, tok);
    case CondSect(i) => CondSectStaysQuiet(st, i, tok);
    case Entity(i) => EntityTableIsQuiet(i, tok); OnlyCloseWaits(st, tok, EntityMove(i, tok));
    case Notation(i) => NotationTableIsQuiet(i, tok); OnlyCloseWaits(st, tok, NotationMove(i, tok));
    case Attlist(i) => AttlistTableIsQuiet(i, tok); OnlyCloseWaits(st, tok, AttlistMove(i, tok));
    case Element(i) =>
      ElementMoveShape(i, tok, st.level);
      OnlyCloseWaits(st.(level := NextLevel(i, tok, st.level)), tok, ElementMove(i, tok, st.level));
    case DeclClose =>
    case Error =>
  }

  lemma {:induction false} ExternalStaysQuiet(st: State, i: nat, tok: Token)
    requires st.handler == ExternalSubset(i)
    ensures QuietNone(Next(st, tok).0)
  {
    SubsetTableIsQuiet(ExternalSubset(1), tok);
    if !(i == 0 && tok.XmlDecl?) {
      var closes := tok.CondSectClose? && st.includeLevel != 0;
      OnlyCloseWaits(st.(handler := ExternalSubset(1),
                         includeLevel := if closes then Dec(st.includeLevel) else st.includeLevel),
                     tok, ExternalSubsetMove(tok, st.includeLevel));
    }
  }

  lemma {:induction false} CondSectStaysQuiet(st: State, i: nat, tok: Token)
    requires st.handler == CondSect(i)
    ensures QuietNone(Next(st, tok).0)
  {
    var opens := i == 1 && tok.OpenBracket?;
    OnlyCloseWaits(st.(includeLevel := if opens then Inc(st.includeLevel) else st.includeLevel), tok,
                   CondSectMove(i, tok));
  }

  /** One token keeps the machine consistent with its history. */
  lemma {:induction false} Step(st: State, tok: Token, groups: int, includes: int, last: Token)
    requires Consistent(st, groups, includes, last) && QuietNone(st)
    requires groups + 1 < WRAP && st.includeLevel + 1 < WRAP
    ensures StaysConsistent(Next(st, tok), tok, groups, includes, last)
  {
    match st.handler
    case Prolog(i) => DocumentTablesAreQuiet(i, tok); QuietFollows(st, tok, PrologMove(i, tok), groups, includes, last);
    case Doctype(i) =>
      DocumentTablesAreQuiet(i, tok);
      QuietFollows(st, tok, DoctypeMove(i, tok), groups, includes, last);
    case InternalSubset =>
      SubsetTableIsQuiet(InternalSubset, tok);
      QuietFollows(st, tok, SubsetMove(InternalSubset, tok), groups, includes, last);
    case ExternalSubset(i) => ExternalSubsetStep(st, i, tok, groups, includes, last);
    case CondSect(i) => CondSectStep(st, i, tok, groups, includes, last);
    case Entity(i) => EntityTableIsQuiet(i, tok); QuietFollows(st, tok, EntityMove(i, tok), groups, includes, last);
    case Notation(i) =>
      NotationTableIsQuiet(i, tok);
      QuietFollows(st, tok, NotationMove(i, tok), groups, includes, last);
    case Attlist(i) => AttlistTableIsQuiet(i, tok); QuietFollows(st, tok, AttlistMove(i, tok), groups, includes, last);
    case Element(i) => ElementStep(st, i, tok, groups, includes, last);
    case DeclClose => DeclCloseStep(st, tok, groups, includes, last);
    case Error =>
  }

  /** Over every run, as long as fewer than 2^32 tokens have been read: level is the number of open
      groups, includeLevel the number of open INCLUDE sections, and neither has wrapped around. */
  lemma {:induction false} CountersAgree(st: State, toks: seq<Token>)
    requires st.handler == (if st.documentEntity then Prolog(0) else ExternalSubset(0)) && st.includeLevel == 0
    requires |toks| < WRAP
    ensures QuietNone(Run(st, toks))
    ensures Run(st, toks).documentEntity == st.documentEntity
    ensures Consistent(Run(st, toks), OpenGroups(Roles(st, toks)), OpenIncludes(toks), LastSignificant(toks))
    ensures OpenGroups(Roles(st, toks)) <= |toks| && OpenIncludes(toks) <= |toks|
    ensures Run(st, toks).includeLevel <= |toks|
  {
    if toks != [] {
      var before, tok := toks[..|toks| - 1], toks[|toks| - 1];
      CountersAgree(st, before);
      var mid := Run(st, before);
      Step(mid, tok, OpenGroups(Roles(st, before)), OpenIncludes(before), LastSignificant(before));
      NoneStaysQuiet(mid, tok);
      assert Roles(st, toks) == Roles(st, before) + [Next(mid, tok).1];
      assert Roles(st, toks)[..|Roles(st, toks)| - 1] == Roles(st, before);
      IncludeGrowsByOne(mid, tok);
    }
  }

  /** What a token does to the parentheses open in its declaration. */
  function ParenChange(tok: Token): int {
    if tok.OpenParen? then 1 else if ClosesGroup(tok) then -1 else 0
  }

  /** The parentheses open since the last declaration began, counted on the tokens alone. */
  function OpenParens(toks: seq<Token>): int {
    if toks == [] then 0
    else if toks[|toks| - 1].DeclOpen? then 0
    else OpenParens(toks[..|toks| - 1]) + ParenChange(toks[|toks| - 1])
  }

  /** The declarations in which no parenthesis may stand outside a content model. */
  predicate CountsParens(h: Handler) { h.Element? || h.Entity? || h.Notation? || h.DeclClose? }

  predicate ParensFit(h: Handler, level: nat, parens: int) {
    CountsParens(h) ==> parens == if InGroup(h) || InMixed(h) then level else 0
  }

  function Target(documentEntity: bool, move: Move): Handler
    requires !move.Stuck?
  {
    match move
    case Go(to, _) => to
    case Top(_) => TopLevel(documentEntity)
    case Close(_) => DeclClose
  }

  /** A declaration starts at its own token, and outside content models reads no parenthesis. */
  predicate PlainMove(h: Handler, tok: Token, to: Handler) {
    CountsParens(to) ==>
      && !InGroup(to) && !InMixed(to)
      && (tok.DeclOpen? || (CountsParens(h) && ParenChange(tok) == 0))
  }

  lemma {:induction false} SubsetsArePlain(h: Handler, tok: Token, documentEntity: bool)
    requires h == InternalSubset || h == ExternalSubset(1)
    ensures var move := SubsetMove(h, tok); !move.Stuck? ==> PlainMove(h, tok, Target(documentEntity, move))
  {
  }

  lemma {:induction false} ExternalIsPlain(i: nat, tok: Token, includeLevel: nat, documentEntity: bool)
    ensures var move := ExternalSubsetMove(tok, includeLevel);
            !move.Stuck? ==> PlainMove(ExternalSubset(1), tok, Target(documentEntity, move))
    ensures var move := CondSectMove(i, tok); !move.Stuck? ==> PlainMove(CondSect(i), tok, Target(documentEntity, move))
  {
    hide SubsetMove;
    SubsetsArePlain(ExternalSubset(1), tok, documentEntity);
  }

  lemma {:induction false} DocumentIsPlain(i: nat, tok: Token, documentEntity: bool)
    ensures var move := PrologMove(i, tok); !move.Stuck? ==> PlainMove(Prolog(i), tok, Target(documentEntity, move))
    ensures var move := DoctypeMove(i, tok); !move.Stuck? ==> PlainMove(Doctype(i), tok, Target(documentEntity, move))
  {
  }

  lemma {:induction false} EntitiesArePlain(i: nat, tok: Token, documentEntity: bool)
    ensures var move := EntityMove(i, tok); !move.Stuck? ==> PlainMove(Entity(i), tok, Target(documentEntity, move))
    ensures var move := NotationMove(i, tok);
            !move.Stuck? ==> PlainMove(Notation(i), tok, Target(documentEntity, move))
  {
  }

  lemma {:induction false} AttlistsArePlain(i: nat, tok: Token, documentEntity: bool)
    ensures var move := AttlistMove(i, tok); !move.Stuck? ==> PlainMove(Attlist(i), tok, Target(documentEntity, move))
  {
  }

  lemma {:induction false} PlainFollows(st: State, tok: Token, move: Move, before: int)
    requires ParensFit(st.handler, st.level, before) && !InGroup(st.handler) && !InMixed(st.handler)
    requires !move.Stuck? ==> PlainMove(st.handler, tok, Target(st.documentEntity, move))
    ensures var st' := Follow(st, tok, move).0;
            ParensFit(st'.handler, st'.level, if tok.DeclOpen? then 0 else before + ParenChange(tok))
  {
  }

  /** One token of an element declaration. */
  lemma {:induction false} ElementParens(i: nat, tok: Token, level: nat, documentEntity: bool)
    requires i >= 2 ==> 1 <= level && level + 1 < WRAP && (i <= 5 ==> level == 1)
    ensures var move := ElementMove(i, tok, level);
            && (tok.DeclOpen? ==> move.Stuck?)
            && (!move.Stuck? ==>
                  ParensFit(Target(documentEntity, move), NextLevel(i, tok, level),
                            (if i >= 2 then level else 0) + ParenChange(tok)))
  {
  }

  lemma {:induction false} ElementParensFollow(st: State, i: nat, tok: Token, before: int)
    requires st.handler == Element(i) && ParensFit(st.handler, st.level, before)
    requires i >= 2 ==> 1 <= st.level && st.level + 1 < WRAP && (i <= 5 ==> st.level == 1)
    ensures var st' := Next(st, tok).0;
            ParensFit(st'.handler, st'.level, if tok.DeclOpen? then 0 else before + ParenChange(tok))
  {
    hide ElementMove;
    ElementParens(i, tok, st.level, st.documentEntity);
  }

  lemma {:induction false} ExternalParensFollow(st: State, i: nat, tok: Token, before: int)
    requires st.handler == ExternalSubset(i) || st.handler == CondSect(i)
    ensures var st' := Next(st, tok).0;
            ParensFit(st'.handler, st'.level, if tok.DeclOpen? then 0 else before + ParenChange(tok))
  {
    hide ExternalSubsetMove, CondSectMove;
    ExternalIsPlain(i, tok, st.includeLevel, st.documentEntity);
    if st.handler.ExternalSubset? {
      var closes := tok.CondSectClose? && st.includeLevel != 0;
      PlainFollows(st.(handler := ExternalSubset(1),
                       includeLevel := if closes then Dec(st.includeLevel) else st.includeLevel),
                   tok, ExternalSubsetMove(tok, st.includeLevel), before);
    } else {
      var opens := i == 1 && tok.OpenBracket?;
      PlainFollows(st.(includeLevel := if opens then Inc(st.includeLevel) else st.includeLevel), tok,
                   CondSectMove(i, tok), before);
    }
  }

  lemma {:induction false} ParensStep(st: State, tok: Token, before: int)
    requires ParensFit(st.handler, st.level, before)
    requires InGroup(st.handler) || InMixed(st.handler) ==>
               1 <= st.level && st.level + 1 < WRAP && (st.handler.i <= 5 ==> st.level == 1)
    ensures var st' := Next(st, tok).0;
            ParensFit(st'.handler, st'.level, if tok.DeclOpen? then 0 else before + ParenChange(tok))
  {
    hide PrologMove, DoctypeMove, SubsetMove, ExternalSubsetMove, CondSectMove;
    hide EntityMove, NotationMove, AttlistMove, ElementMove, PlainMove;
    match st.handler
    case Prolog(i) =>
      DocumentIsPlain(i, tok, st.documentEntity);
      PlainFollows(st, tok, PrologMove(i, tok), before);
    case Doctype(i) =>
      DocumentIsPlain(i, tok, st.documentEntity);
      PlainFollows(st, tok, DoctypeMove(i, tok), before);
    case InternalSubset =>
      SubsetsArePlain(InternalSubset, tok, st.documentEntity);
      PlainFollows(st, tok, SubsetMove(InternalSubset, tok), before);
    case ExternalSubset(i) => ExternalParensFollow(st, i, tok, before);
    case CondSect(i) => ExternalParensFollow(st, i, tok, before);
    case Entity(i) =>
      EntitiesArePlain(i, tok, st.documentEntity);
      PlainFollows(st, tok, EntityMove(i, tok), before);
    case Notation(i) =>
      EntitiesArePlain(i, tok, st.documentEntity);
      PlainFollows(st, tok, NotationMove(i, tok), before);
    case Attlist(i) =>
      AttlistsArePlain(i, tok, st.documentEntity);
      PlainFollows(st, tok, AttlistMove(i, tok), before);
    case Element(i) => ElementParensFollow(st, i, tok, before);
    case DeclClose =>
    case Error =>
  }

  /** Inside a content model the machine's level is the number of parentheses that the tokens of the
      declaration opened and did not close, and so is the number of groups it has reported open; behind
      the model, as before it, there are none. */
  lemma {:induction false} LevelCountsParentheses(st: State, toks: seq<Token>)
    requires st.handler == (if st.documentEntity then Prolog(0) else ExternalSubset(0)) && st.includeLevel == 0
    requires |toks| < WRAP
    ensures ParensFit(Run(st, toks).handler, Run(st, toks).level, OpenParens(toks))
    ensures CountsParens(Run(st, toks).handler) ==> OpenGroups(Roles(st, toks)) == OpenParens(toks)
  {
    CountersAgree(st, toks);
    if toks != [] {
      var before := toks[..|toks| - 1];
      CountersAgree(st, before);
      LevelCountsParentheses(st, before);
      ParensStep(Run(st, before), toks[|toks| - 1], OpenParens(before));
    }
  }

  /** Feeds the tokens of an entity to a new machine; its level and roleNone start with any value. */
  method ReadEntity(external: bool, toks: seq<Token>) returns (p: PrologState, roles: seq<Role>, ghost start: State)
    ensures fresh(p)
    ensures start == (if external then ExternalStart(start.level, start.roleNone)
                      else DocumentStart(start.level, start.roleNone))
    ensures p.View() == Run(start, toks) && roles == Roles(start, toks)
    ensures |toks| < WRAP && (InGroup(p.handler) || InMixed(p.handler)) ==> p.level == OpenParens(toks)
    ensures |toks| < WRAP && external && !p.handler.Error? ==> p.includeLevel == OpenIncludes(toks)
  {
    p := new PrologState();
    if external {
      p.InitExternalEntity();
    }
    start := p.View();
    roles := [];
    var n := 0;
    while n < |toks|
      invariant 0 <= n <= |toks| && fresh(p)
      invariant p.View() == Run(start, toks[..n]) && roles == Roles(start, toks[..n])
    {
      assert toks[..n + 1][..n] == toks[..n];
      var role := p.TokenRole(toks[n]);
      roles, n := roles + [role], n + 1;
    }
    assert toks[..n] == toks;
    if |toks| < WRAP {
      CountersAgree(start, toks);
      LevelCountsParentheses(start, toks);
    }
  }

  lemma {:induction false} FollowKeepsEntity(st: State, tok: Token, move: Move)
    ensures var st' := Follow(st, tok, move).0;
            st'.documentEntity == st.documentEntity && st'.includeLevel == st.includeLevel
  {
  }

  lemma {:induction false} IncludeGrowsByOne(st: State, tok: Token)
    ensures Next(st, tok).0.documentEntity == st.documentEntity
    ensures st.includeLevel + 1 < WRAP ==> Next(st, tok).0.includeLevel <= st.includeLevel + 1
  {
    match st.handler
    case Prolog(i) => FollowKeepsEntity(st, tok, PrologMove(i, tok));
    case Doctype(i) => FollowKeepsEntity(st, tok, DoctypeMove(i, tok));
    case InternalSubset => FollowKeepsEntity(st, tok, SubsetMove(InternalSubset, tok));
    case ExternalSubset(i) =>
      var closes := tok.CondSectClose? && st.includeLevel != 0;
      FollowKeepsEntity(st.(handler := ExternalSubset(1),
                            includeLevel := if closes then Dec(st.includeLevel) else st.includeLevel),
                        tok, ExternalSubsetMove(tok, st.includeLevel));
    case CondSect(i) =>
      var opens := i == 1 && tok.OpenBracket?;
      FollowKeepsEntity(st.(includeLevel := if opens then Inc(st.includeLevel) else st.includeLevel), tok,
                        CondSectMove(i, tok));
    case Entity(i) => FollowKeepsEntity(st, tok, EntityMove(i, tok));
    case Notation(i) => FollowKeepsEntity(st, tok, NotationMove(i, tok));
    case Attlist(i) => FollowKeepsEntity(st, tok, AttlistMove(i, tok));
    case Element(i) =>
      FollowKeepsEntity(st.(level := NextLevel(i, tok, st.level)), tok, ElementMove(i, tok, st.level));
    case DeclClose =>
    case Error =>
  }

  /** A document entity never reaches a handler of an external subset, and the other way round. */
  lemma {:induction false} EntitiesKeepToTheirHandlers(st: State, toks: seq<Token>)
    requires st.handler == (if st.documentEntity then Prolog(0) else ExternalSubset(0)) && st.includeLevel == 0
    requires |toks| < WRAP
    ensures st.documentEntity ==> !OnlyInExternal(Run(st, toks).handler)
    ensures !st.documentEntity ==> !OnlyInDocument(Run(st, toks).handler)
  {
    CountersAgree(st, toks);
  }

  /** The end of an external subset is accepted only when every INCLUDE section has been closed. */
  lemma {:induction false} EndNeedsClosedSections(st: State, toks: seq<Token>)
    requires st.handler == ExternalSubset(0) && !st.documentEntity && st.includeLevel == 0
    requires |toks| < WRAP && Run(st, toks).handler.ExternalSubset?
    ensures Next(Run(st, toks), NoToken).1.RError? <==> OpenIncludes(toks) != 0
  {
    CountersAgree(st, toks);
  }

  /** After an error nothing else is ever reported. */
  lemma {:induction false} ErrorIsFinal(st: State, toks: seq<Token>)
    requires st.handler.Error?
    ensures Run(st, toks) == st
    ensures forall i | 0 <= i < |Roles(st, toks)| :: Roles(st, toks)[i].RNone?
  {
    if toks != [] {
      ErrorIsFinal(st, toks[..|toks| - 1]);
    }
  }
}
