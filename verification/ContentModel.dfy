/** Content models of element declarations, and the machine that reads them: the handlers element1
    to element7 (xmlrole.c) together with what doProlog does on their roles (xmlparse.c). */
module ContentModels {
  import opened Prolog

  datatype Quant = QNone | QOpt | QRep | QPlus

  datatype Kind = KEmpty | KAny | KMixed | KName | KChoice | KSeq

  /** The tree handed to the application (XML_Content). */
  datatype Content = Content(kind: Kind, quant: Quant, name: string, children: seq<Content>)

  /** A name or a parenthesised group; a group with one member counts as a sequence. */
  ghost predicate IsParticle(c: Content) {
    if c.kind.KName? then c.children == []
    else
      && c.name == ""
      && ((c.kind.KSeq? && |c.children| >= 1) || (c.kind.KChoice? && |c.children| >= 2))
      && forall d | d in c.children :: IsParticle(d)
  }

  ghost predicate IsMixed(c: Content) {
    && c.kind.KMixed? && c.name == ""
    && (forall d | d in c.children :: d.kind.KName? && d.quant.QNone? && d.children == [])
    && (c.quant.QRep? || (c.quant.QNone? && c.children == []))
  }

  /** What may follow the element name in a declaration. */
  ghost predicate IsModel(c: Content) {
    || c == Content(KEmpty, QNone, "", [])
    || c == Content(KAny, QNone, "", [])
    || IsMixed(c)
    || (IsParticle(c) && !c.kind.KName?)
  }

  function NameToken(name: string, quant: Quant): Token {
    match quant
    case QNone => if ':' in name then PrefixedName(name) else Name(name)
    case QOpt => NameQuestion(name)
    case QRep => NameAsterisk(name)
    case QPlus => NamePlus(name)
  }

  function CloseToken(quant: Quant): Token {
    match quant
    case QNone => CloseParen
    case QOpt => CloseParenQuestion
    case QRep => CloseParenAsterisk
    case QPlus => CloseParenPlus
  }

  function Separator(kind: Kind): Token { if kind.KChoice? then Or else Comma }

  function PrintParticle(c: Content): seq<Token>
    decreases c, 1
  {
    if c.kind.KName? then [NameToken(c.name, c.quant)]
    else [OpenParen] + PrintList(c.kind, c.children) + [CloseToken(c.quant)]
  }

  /** The members of a group of the given kind, with separators between them. */
  function PrintList(kind: Kind, cs: seq<Content>): seq<Token>
    decreases cs, 0
  {
    if cs == [] then []
    else
      var init, last := cs[..|cs| - 1], cs[|cs| - 1];
      (if init == [] then [] else PrintList(kind, init) + [Separator(kind)]) + PrintParticle(last)
  }

  /** The names of a mixed content model, each after a separator. */
  function PrintNames(cs: seq<Content>): seq<Token> {
    if cs == [] then []
    else PrintNames(cs[..|cs| - 1]) + [Or, NameToken(cs[|cs| - 1].name, QNone)]
  }

  function PrintModel(c: Content): seq<Token> {
    match c.kind
    case KEmpty => [Name("EMPTY")]
    case KAny => [Name("ANY")]
    case KMixed => [OpenParen, PoundName("PCDATA")] + PrintNames(c.children) + [CloseToken(c.quant)]
    case _ => PrintParticle(c)
  }
}

/** The machine on values: open groups, and the roles that change them. */
module ContentParsing {
  import opened Prolog
  import opened PrologRuns
  import opened ContentModels

  /** An open group: its kind so far, its separator ('\0' when none was seen), its closed members. */
  datatype Frame = Frame(kind: Kind, conn: char, done: seq<Content>)

  datatype Build =
    | Open(frames: seq<Frame>)
    | Done(model: Content)
    | Failed

  function Innermost(frames: seq<Frame>): Frame
    requires frames != []
  {
    frames[|frames| - 1]
  }

  function SetTop(frames: seq<Frame>, f: Frame): seq<Frame>
    requires frames != []
  {
    frames[..|frames| - 1] + [f]
  }

  function AddMember(frames: seq<Frame>, c: Content): seq<Frame>
    requires frames != []
  {
    SetTop(frames, Innermost(frames).(done := Innermost(frames).done + [c]))
  }

  function Closed(f: Frame, quant: Quant): Content {
    Content(f.kind, quant, "", f.done)
  }

  function CloseTop(frames: seq<Frame>, quant: Quant): Build
    requires frames != []
  {
    var c := Closed(Innermost(frames), quant);
    if |frames| == 1 then Done(c) else Open(AddMember(frames[..|frames| - 1], c))
  }

  function Text(tok: Token): string {
    if tok.Name? || tok.PrefixedName? || tok.NameQuestion? || tok.NameAsterisk? || tok.NamePlus? then tok.text else ""
  }

  predicate IsElementRole(role: Role) {
    role.RContentElement? || role.RContentElementOpt? || role.RContentElementRep? || role.RContentElementPlus?
  }

  function ElementQuant(role: Role): Quant {
    if role.RContentElementOpt? then QOpt else if role.RContentElementRep? then QRep
    else if role.RContentElementPlus? then QPlus else QNone
  }

  function GroupQuant(role: Role): Quant {
    if role.RGroupCloseOpt? then QOpt else if role.RGroupCloseRep? then QRep
    else if role.RGroupClosePlus? then QPlus else QNone
  }

  /** What doProlog does on a role inside an element declaration. */
  function Act(b: Build, role: Role, name: string): Build {
    if !b.Open? then b
    else if role.RGroupOpen? then Open(b.frames + [Frame(KSeq, '\0', [])])
    else if role.RContentEmpty? then Done(Content(KEmpty, QNone, "", []))
    else if role.RContentAny? then Done(Content(KAny, QNone, "", []))
    else if role.RError? then Failed
    else if !NeedsGroup(role) then b
    else if b.frames == [] then Failed
    else if IsElementRole(role) then Open(AddMember(b.frames, Content(KName, ElementQuant(role), name, [])))
    else if ClosingRole(role) then CloseTop(b.frames, GroupQuant(role))
    else
      var f := Innermost(b.frames);
      if role.RContentPcdata? then Open(SetTop(b.frames, f.(kind := KMixed)))
      else if role.RGroupSequence? then
        (if f.conn == '|' then Failed else Open(SetTop(b.frames, f.(conn := ','))))
      else
        (if f.conn == ',' then Failed else Open(SetTop(b.frames, WithSeparator(f, KChoice))))
  }

  /** Roles of which doProlog takes a group to be open. */
  predicate NeedsGroup(role: Role) {
    role.RContentPcdata? || role.RGroupSequence? || role.RGroupChoice? || IsElementRole(role) || ClosingRole(role)
  }

  /** The state of the innermost group after a separator. */
  function WithSeparator(f: Frame, kind: Kind): Frame {
    if kind.KChoice? then Frame(if f.conn == '\0' && !f.kind.KMixed? then KChoice else f.kind, '|', f.done)
    else f.(conn := ',')
  }

  datatype Parse = Parse(st: State, b: Build)

  function Feed(p: Parse, tok: Token): Parse {
    var (st, role) := Next(p.st, tok);
    Parse(st, Act(p.b, role, Text(tok)))
  }

  function FeedAll(p: Parse, toks: seq<Token>): Parse {
    if toks == [] then p else Feed(FeedAll(p, toks[..|toks| - 1]), toks[|toks| - 1])
  }

  /** From p the tokens lead to q, through the states of a trace. */
  ghost predicate Reads(p: Parse, toks: seq<Token>, q: Parse) {
    exists trace :: IsTrace(trace, p, toks, q)
  }

  ghost predicate IsTrace(trace: seq<Parse>, p: Parse, toks: seq<Token>, q: Parse) {
    && |trace| == |toks| + 1
    && trace[0] == p && trace[|toks|] == q
    && forall i | 0 <= i < |toks| :: trace[i + 1] == Feed(trace[i], toks[i])
  }

  lemma {:induction false} ReadsIsFeedAll(p: Parse, toks: seq<Token>, q: Parse)
    requires Reads(p, toks, q)
    ensures q == FeedAll(p, toks)
  {
    var trace :| IsTrace(trace, p, toks, q);
    if toks != [] {
      var n := |toks| - 1;
      assert IsTrace(trace[..n + 1], p, toks[..n], trace[n]);
      ReadsIsFeedAll(p, toks[..n], trace[n]);
    }
  }

  lemma {:induction false} ReadsOne(p: Parse, tok: Token)
    ensures Reads(p, [tok], Feed(p, tok))
  {
    assert IsTrace([p, Feed(p, tok)], p, [tok], Feed(p, tok));
  }

  lemma {:induction false} ReadsNothing(p: Parse)
    ensures Reads(p, [], p)
  {
    assert IsTrace([p], p, [], p);
  }

  lemma {:induction false} ReadsConcat(p: Parse, a: seq<Token>, q: Parse, b: seq<Token>, r: Parse)
    requires Reads(p, a, q) && Reads(q, b, r)
    ensures Reads(p, a + b, r)
  {
    var t1 :| IsTrace(t1, p, a, q);
    var t2 :| IsTrace(t2, q, b, r);
    var t := t1 + t2[1..];
    forall i | 0 <= i < |a + b| ensures t[i + 1] == Feed(t[i], (a + b)[i]) {
      if i < |a| {
        assert t[i] == t1[i] && t[i + 1] == t1[i + 1];
      } else {
        assert t[i] == t2[i - |a|] && t[i + 1] == t2[i - |a| + 1];
      }
    }
    assert IsTrace(t, p, a + b, r);
  }

  /** A member is expected in the innermost of the open groups. */
  ghost predicate Ready(p: Parse, frames: seq<Frame>) {
    && p.b == Open(frames) && frames != []
    && p.st.level == |frames|
    && (p.st.handler == Element(6) || (p.st.handler == Element(2) && |frames| == 1))
  }

  /** A member of the innermost group has just been read. */
  ghost predicate AfterMember(p: Parse, frames: seq<Frame>) {
    p.b == Open(frames) && frames != [] && p.st.level == |frames| && p.st.handler == Element(7)
  }

  const NewFrame: Frame := Frame(KSeq, '\0', [])

  lemma {:induction false} ReadOpen(p: Parse, frames: seq<Frame>) returns (q: Parse)
    requires Ready(p, frames) && |frames| + 1 < WRAP
    ensures q == Feed(p, OpenParen)
    ensures q == Parse(p.st.(handler := Element(6), level := |frames| + 1), Open(frames + [NewFrame]))
    ensures Reads(p, [OpenParen], q)
  {
    q := Feed(p, OpenParen);
    ReadsOne(p, OpenParen);
  }

  lemma {:induction false} ReadName(p: Parse, frames: seq<Frame>, c: Content) returns (q: Parse)
    requires Ready(p, frames) && c == Content(KName, c.quant, c.name, [])
    ensures q == Feed(p, NameToken(c.name, c.quant))
    ensures q == Parse(p.st.(handler := Element(7)), Open(AddMember(frames, c)))
    ensures Reads(p, [NameToken(c.name, c.quant)], q)
  {
    q := Feed(p, NameToken(c.name, c.quant));
    ReadsOne(p, NameToken(c.name, c.quant));
  }

  lemma {:induction false} ReadSeparator(p: Parse, outer: seq<Frame>, f: Frame, kind: Kind) returns (q: Parse)
    requires AfterMember(p, outer + [f])
    requires f.conn != (if kind.KChoice? then ',' else '|')
    ensures q == Feed(p, Separator(kind))
    ensures q == Parse(p.st.(handler := Element(6)), Open(outer + [WithSeparator(f, kind)]))
    ensures Reads(p, [Separator(kind)], q)
  {
    q := Feed(p, Separator(kind));
    ReadsOne(p, Separator(kind));
    assert (outer + [f])[..|outer + [f]| - 1] == outer;
  }

  lemma {:induction false} ReadClose(p: Parse, frames: seq<Frame>, quant: Quant) returns (q: Parse)
    requires AfterMember(p, frames) && |frames| < WRAP
    ensures q == Feed(p, CloseToken(quant))
    ensures q.b == CloseTop(frames, quant)
    ensures |frames| > 1 ==> q.st == p.st.(level := |frames| - 1)
    ensures |frames| == 1 ==> q.st.handler.DeclClose?
    ensures Reads(p, [CloseToken(quant)], q)
  {
    q := Feed(p, CloseToken(quant));
    ReadsOne(p, CloseToken(quant));
  }

  /** The innermost group after all of cs has been read into it. */
  function Filled(kind: Kind, cs: seq<Content>): Frame {
    if |cs| <= 1 then Frame(KSeq, '\0', cs)
    else if kind.KChoice? then Frame(KChoice, '|', cs)
    else Frame(KSeq, ',', cs)
  }

  function WithMember(p: Parse, frames: seq<Frame>, c: Content): Parse
    requires frames != []
  {
    Parse(p.st.(handler := Element(7)), Open(AddMember(frames, c)))
  }

  lemma {:induction false} AddToTop(outer: seq<Frame>, f: Frame, c: Content)
    ensures AddMember(outer + [f], c) == outer + [f.(done := f.done + [c])]
  {
  }

  /** Reading a printed particle adds exactly that particle to the innermost group. */
  lemma {:induction false} ParticleIsRead(p: Parse, frames: seq<Frame>, c: Content)
    requires Ready(p, frames) && IsParticle(c)
    requires |frames| + |PrintParticle(c)| < WRAP
    ensures Reads(p, PrintParticle(c), WithMember(p, frames, c))
    decreases c, 1
  {
    if c.kind.KName? {
      var q := ReadName(p, frames, c);
    } else {
      var body := PrintList(c.kind, c.children);
      var p1 := ReadOpen(p, frames);
      var p2 := ListIsRead(p1, frames, c.kind, c.children);
      var p3 := ReadClose(p2, frames + [Filled(c.kind, c.children)], c.quant);
      ReadsConcat(p, [OpenParen], p1, body, p2);
      ReadsConcat(p, [OpenParen] + body, p2, [CloseToken(c.quant)], p3);
      ClosingGivesBack(frames, c);
    }
  }

  lemma {:induction false} ClosingGivesBack(outer: seq<Frame>, c: Content)
    requires IsParticle(c) && !c.kind.KName?
    ensures CloseTop(outer + [Filled(c.kind, c.children)], c.quant)
         == if outer == [] then Done(c) else Open(AddMember(outer, c))
  {
    var inner := outer + [Filled(c.kind, c.children)];
    assert Closed(Innermost(inner), c.quant) == c;
    assert inner[..|inner| - 1] == outer;
  }

  lemma {:induction false} ListIsRead(p: Parse, outer: seq<Frame>, kind: Kind, cs: seq<Content>) returns (q: Parse)
    requires Ready(p, outer + [NewFrame])
    requires cs != [] && forall c | c in cs :: IsParticle(c)
    requires |outer| + 1 + |PrintList(kind, cs)| < WRAP
    ensures q == Parse(p.st.(handler := Element(7)), Open(outer + [Filled(kind, cs)]))
    ensures Reads(p, PrintList(kind, cs), q)
    decreases cs, 0
  {
    var init, last := cs[..|cs| - 1], cs[|cs| - 1];
    assert cs == init + [last];
    if init == [] {
      q := FirstIsRead(p, outer, kind, last);
    } else {
      var p1 := ListIsRead(p, outer, kind, init);
      q := LastIsRead(p, p1, outer, kind, init, last);
    }
  }

  lemma {:induction false} FirstIsRead(p: Parse, outer: seq<Frame>, kind: Kind, c: Content) returns (q: Parse)
    requires Ready(p, outer + [NewFrame]) && IsParticle(c)
    requires |outer| + 1 + |PrintList(kind, [c])| < WRAP
    ensures q == Parse(p.st.(handler := Element(7)), Open(outer + [Filled(kind, [c])]))
    ensures Reads(p, PrintList(kind, [c]), q)
    decreases c, 2
  {
    assert PrintList(kind, [c]) == PrintParticle(c);
    ParticleIsRead(p, outer + [NewFrame], c);
    AddToTop(outer, NewFrame, c);
    assert NewFrame.done + [c] == [c];
    q := WithMember(p, outer + [NewFrame], c);
  }

  lemma {:induction false} LastIsRead(p: Parse, p1: Parse, outer: seq<Frame>, kind: Kind, init: seq<Content>,
                                      last: Content)
    returns (q: Parse)
    requires init != [] && IsParticle(last)
    requires p1 == Parse(p.st.(handler := Element(7)), Open(outer + [Filled(kind, init)]))
    requires p1.st.level == |outer| + 1
    requires Reads(p, PrintList(kind, init), p1)
    requires |outer| + 1 + |PrintList(kind, init + [last])| < WRAP
    ensures q == Parse(p.st.(handler := Element(7)), Open(outer + [Filled(kind, init + [last])]))
    ensures Reads(p, PrintList(kind, init + [last]), q)
    decreases last, 2
  {
    var f := WithSeparator(Filled(kind, init), kind);
    var p2 := ReadSeparator(p1, outer, Filled(kind, init), kind);
    ListUnfolds(kind, init, last);
    ParticleIsRead(p2, outer + [f], last);
    q := WithMember(p2, outer + [f], last);
    ReadsConcat(p, PrintList(kind, init), p1, [Separator(kind)], p2);
    ReadsConcat(p, PrintList(kind, init) + [Separator(kind)], p2, PrintParticle(last), q);
    AddToTop(outer, f, last);
  }

  lemma {:induction false} ListUnfolds(kind: Kind, init: seq<Content>, last: Content)
    requires init != []
    ensures PrintList(kind, init + [last]) == PrintList(kind, init) + [Separator(kind)] + PrintParticle(last)
    ensures var f := WithSeparator(Filled(kind, init), kind);
            f.(done := init + [last]) == Filled(kind, init + [last])
  {
    assert (init + [last])[..|init + [last]| - 1] == init;
  }

  /** The element name has been read; its content follows. */
  ghost predicate AtContent(p: Parse) {
    p.st.handler == Element(1) && p.b == Open([])
  }

  ghost predicate Accepted(p: Parse, m: Content) {
    p.st.handler.DeclClose? && p.b == Done(m)
  }

  lemma {:induction false} ReadFirstOpen(p: Parse) returns (q: Parse)
    requires AtContent(p)
    ensures q == Feed(p, OpenParen)
    ensures q == Parse(p.st.(handler := Element(2), level := 1), Open([NewFrame]))
    ensures Reads(p, [OpenParen], q)
  {
    q := Feed(p, OpenParen);
    ReadsOne(p, OpenParen);
    assert [] + [NewFrame] == [NewFrame];
  }

  lemma {:induction false} GroupIsRead(p: Parse, m: Content) returns (q: Parse)
    requires AtContent(p) && IsParticle(m) && !m.kind.KName?
    requires |PrintModel(m)| < WRAP
    ensures Reads(p, PrintModel(m), q) && Accepted(q, m)
  {
    var body := PrintList(m.kind, m.children);
    var p1 := ReadFirstOpen(p);
    assert [] + [NewFrame] == [NewFrame];
    var p2 := ListIsRead(p1, [], m.kind, m.children);
    q := ReadClose(p2, [] + [Filled(m.kind, m.children)], m.quant);
    ReadsConcat(p, [OpenParen], p1, body, p2);
    ReadsConcat(p, [OpenParen] + body, p2, [CloseToken(m.quant)], q);
    ClosingGivesBack([], m);
  }

  /** Inside a mixed content model after cs. */
  ghost predicate InNames(p: Parse, cs: seq<Content>) {
    && p.b == Open([Frame(KMixed, '\0', cs)])
    && p.st.handler == Element(if cs == [] then 3 else 5)
  }

  lemma {:induction false} ReadPcdata(p: Parse) returns (q: Parse)
    requires p.st.handler == Element(2) && p.b == Open([NewFrame])
    ensures q == Feed(p, PoundName("PCDATA"))
    ensures InNames(q, []) && Reads(p, [PoundName("PCDATA")], q)
  {
    q := Feed(p, PoundName("PCDATA"));
    ReadsOne(p, PoundName("PCDATA"));
    assert SetTop([NewFrame], NewFrame.(kind := KMixed)) == [Frame(KMixed, '\0', [])];
  }

  lemma {:induction false} NamesAreRead(p: Parse, cs: seq<Content>) returns (q: Parse)
    requires InNames(p, [])
    requires forall d | d in cs :: d.kind.KName? && d.quant.QNone? && d.children == []
    ensures InNames(q, cs) && Reads(p, PrintNames(cs), q)
  {
    if cs == [] {
      ReadsNothing(p);
      q := p;
    } else {
      var init, last := cs[..|cs| - 1], cs[|cs| - 1];
      assert cs == init + [last];
      var p1 := NamesAreRead(p, init);
      var p2 := ReadMixedOr(p1, init);
      q := ReadMixedName(p2, init, last);
      ReadsConcat(p, PrintNames(init), p1, [Or], p2);
      ReadsConcat(p, PrintNames(init) + [Or], p2, [NameToken(last.name, QNone)], q);
      assert PrintNames(cs) == PrintNames(init) + [Or] + [NameToken(last.name, QNone)];
    }
  }

  lemma {:induction false} ReadMixedOr(p: Parse, cs: seq<Content>) returns (q: Parse)
    requires InNames(p, cs)
    ensures q == Feed(p, Or)
    ensures q == Parse(p.st.(handler := Element(4)), p.b) && Reads(p, [Or], q)
  {
    q := Feed(p, Or);
    ReadsOne(p, Or);
  }

  lemma {:induction false} ReadMixedName(p: Parse, cs: seq<Content>, c: Content) returns (q: Parse)
    requires p.st.handler == Element(4) && p.b == Open([Frame(KMixed, '\0', cs)])
    requires c == Content(KName, QNone, c.name, [])
    ensures q == Feed(p, NameToken(c.name, QNone))
    ensures InNames(q, cs + [c]) && Reads(p, [NameToken(c.name, QNone)], q)
  {
    q := Feed(p, NameToken(c.name, QNone));
    ReadsOne(p, NameToken(c.name, QNone));
    assert AddMember([Frame(KMixed, '\0', cs)], c) == [Frame(KMixed, '\0', cs + [c])];
  }

  lemma {:induction false} ReadMixedClose(p: Parse, m: Content) returns (q: Parse)
    requires IsMixed(m) && InNames(p, m.children)
    ensures q == Feed(p, CloseToken(m.quant))
    ensures Accepted(q, m) && Reads(p, [CloseToken(m.quant)], q)
  {
    q := Feed(p, CloseToken(m.quant));
    ReadsOne(p, CloseToken(m.quant));
    assert m == Content(KMixed, m.quant, "", m.children);
  }

  lemma {:induction false} MixedIsRead(p: Parse, m: Content) returns (q: Parse)
    requires AtContent(p) && IsMixed(m)
    ensures Reads(p, PrintModel(m), q) && Accepted(q, m)
  {
    var body := PrintNames(m.children);
    var p1 := ReadFirstOpen(p);
    var p2 := ReadPcdata(p1);
    var p3 := NamesAreRead(p2, m.children);
    q := ReadMixedClose(p3, m);
    ReadsConcat(p, [OpenParen], p1, [PoundName("PCDATA")], p2);
    ReadsConcat(p, [OpenParen] + [PoundName("PCDATA")], p2, body, p3);
    ReadsConcat(p, [OpenParen] + [PoundName("PCDATA")] + body, p3, [CloseToken(m.quant)], q);
    assert [OpenParen] + [PoundName("PCDATA")] == [OpenParen, PoundName("PCDATA")];
  }

  lemma {:induction false} WordIsRead(p: Parse, m: Content) returns (q: Parse)
    requires AtContent(p) && IsModel(m) && (m.kind.KEmpty? || m.kind.KAny?)
    ensures Reads(p, PrintModel(m), q) && Accepted(q, m)
  {
    var tok := Name(if m.kind.KEmpty? then "EMPTY" else "ANY");
    q := Feed(p, tok);
    ReadsOne(p, tok);
  }

  /** Every content model is read back from its printed form. */
  lemma {:induction false} ModelIsRead(p: Parse, m: Content)
    requires AtContent(p) && IsModel(m)
    requires |PrintModel(m)| < WRAP
    ensures Accepted(FeedAll(p, PrintModel(m)), m)
  {
    var q;
    if m.kind.KEmpty? || m.kind.KAny? {
      q := WordIsRead(p, m);
    } else if m.kind.KMixed? {
      q := MixedIsRead(p, m);
    } else {
      q := GroupIsRead(p, m);
    }
    ReadsIsFeedAll(p, PrintModel(m), q);
  }
}

/** The other direction: whatever the machine accepts is the printed form of the model it built. */
module ContentUniqueness {
  import opened Prolog
  import opened ContentModels
  import opened ContentParsing
  import opened PrologRuns

  /** The kind a group would have if it were closed now. */
  function FrameKind(f: Frame): Kind { if f.conn == '|' then KChoice else KSeq }

  /** A group that waits for its next member. */
  ghost predicate Expecting(f: Frame) {
    && (forall c | c in f.done :: IsParticle(c))
    && f.kind == FrameKind(f)
    && (if f.done == [] then f.conn == '\0' else f.conn == ',' || f.conn == '|')
  }

  /** A group whose last member has just been read. */
  ghost predicate Complete(f: Frame) {
    && (forall c | c in f.done :: IsParticle(c))
    && f.kind == FrameKind(f) && f.done != []
    && (if |f.done| == 1 then f.conn == '\0' else f.conn == ',' || f.conn == '|')
  }

  function PrintComplete(f: Frame): seq<Token> {
    [OpenParen] + PrintList(FrameKind(f), f.done)
  }

  function PrintExpecting(f: Frame): seq<Token> {
    PrintComplete(f) + if f.done == [] then [] else [Separator(FrameKind(f))]
  }

  function PrintOuter(frames: seq<Frame>): seq<Token> {
    if frames == [] then [] else PrintOuter(frames[..|frames| - 1]) + PrintExpecting(frames[|frames| - 1])
  }

  ghost predicate AllExpecting(frames: seq<Frame>) {
    forall f | f in frames :: Expecting(f)
  }

  ghost predicate ExplainsExpecting(frames: seq<Frame>, clean: seq<Token>) {
    frames != [] && AllExpecting(frames) && clean == PrintOuter(frames)
  }

  ghost predicate ExplainsComplete(frames: seq<Frame>, clean: seq<Token>) {
    && frames != [] && AllExpecting(frames[..|frames| - 1]) && Complete(frames[|frames| - 1])
    && clean == PrintOuter(frames[..|frames| - 1]) + PrintComplete(frames[|frames| - 1])
  }

  /** Only names without an indicator. */
  ghost predicate PlainNames(cs: seq<Content>) {
    forall d | d in cs :: d.kind.KName? && d.quant.QNone? && d.children == []
  }

  ghost predicate ExplainsNames(frames: seq<Frame>, clean: seq<Token>) {
    && |frames| == 1 && frames[0] == Frame(KMixed, '\0', frames[0].done) && PlainNames(frames[0].done)
    && clean == [OpenParen, PoundName("PCDATA")] + PrintNames(frames[0].done)
  }

  /** The tokens read so far are the printed form of what is open. */
  ghost predicate Explains(h: Handler, level: nat, b: Build, clean: seq<Token>) {
    h.Error? || b.Failed? ||
    (match h
     case Element(i) =>
       && b.Open?
       && (if i == 1 then b.frames == [] && clean == []
           else if i == 2 then b.frames == [NewFrame] && level == 1 && clean == [OpenParen]
           else if i == 3 then ExplainsNames(b.frames, clean) && b.frames[0].done == []
           else if i == 4 then
             clean != [] && ExplainsNames(b.frames, clean[..|clean| - 1]) && clean[|clean| - 1] == Or
           else if i == 5 then ExplainsNames(b.frames, clean) && b.frames[0].done != []
           else if i == 6 then ExplainsExpecting(b.frames, clean) && level == |b.frames|
           else i == 7 && ExplainsComplete(b.frames, clean) && level == |b.frames|)
     case DeclClose => b.Done? && IsModel(b.model) && clean == PrintModel(b.model)
     case _ => false)
  }

  lemma {:induction false} OneMemberPrintsAlike(c: Content, k: Kind, k': Kind)
    ensures PrintList(k, [c]) == PrintList(k', [c])
  {
  }

  /** Adding a particle to groups that wait for one. */
  lemma {:induction false} AddParticle(frames: seq<Frame>, clean: seq<Token>, c: Content)
    requires ExplainsExpecting(frames, clean) && IsParticle(c)
    ensures ExplainsComplete(AddMember(frames, c), clean + PrintParticle(c))
  {
    var outer, f := frames[..|frames| - 1], Innermost(frames);
    assert f in frames;
    var f' := f.(done := f.done + [c]);
    assert AddMember(frames, c) == outer + [f'];
    assert (outer + [f'])[..|outer|] == outer;
    MemberCompletes(f, c);
  }

  lemma {:induction false} MemberCompletes(f: Frame, c: Content)
    requires Expecting(f) && IsParticle(c)
    ensures Complete(f.(done := f.done + [c]))
    ensures PrintComplete(f.(done := f.done + [c])) == PrintExpecting(f) + PrintParticle(c)
  {
    assert (f.done + [c])[..|f.done|] == f.done;
    LastIsPrinted(FrameKind(f), f.done, c);
  }

  lemma {:induction false} LastIsPrinted(kind: Kind, cs: seq<Content>, c: Content)
    ensures PrintList(kind, cs + [c])
         == (if cs == [] then [] else PrintList(kind, cs) + [Separator(kind)]) + PrintParticle(c)
  {
    assert (cs + [c])[..|cs|] == cs;
  }

  lemma {:induction false} OpenGroup(frames: seq<Frame>, clean: seq<Token>)
    requires ExplainsExpecting(frames, clean)
    ensures ExplainsExpecting(frames + [NewFrame], clean + [OpenParen])
  {
    assert (frames + [NewFrame])[..|frames|] == frames;
    assert PrintExpecting(NewFrame) == [OpenParen];
  }

  lemma {:induction false} AddSeparator(frames: seq<Frame>, clean: seq<Token>, kind: Kind)
    requires ExplainsComplete(frames, clean) && (kind.KSeq? || kind.KChoice?)
    requires Innermost(frames).conn != (if kind.KChoice? then ',' else '|')
    ensures ExplainsExpecting(SetTop(frames, WithSeparator(Innermost(frames), kind)), clean + [Separator(kind)])
  {
    var outer, f := frames[..|frames| - 1], Innermost(frames);
    var f' := WithSeparator(f, kind);
    SeparatorIsPrinted(f, kind);
    assert (outer + [f'])[..|outer|] == outer;
  }

  lemma {:induction false} SeparatorIsPrinted(f: Frame, kind: Kind)
    requires Complete(f) && (kind.KSeq? || kind.KChoice?)
    requires f.conn != (if kind.KChoice? then ',' else '|')
    ensures Expecting(WithSeparator(f, kind))
    ensures PrintExpecting(WithSeparator(f, kind)) == PrintComplete(f) + [Separator(kind)]
  {
    if |f.done| == 1 {
      assert f.done == [f.done[0]];
      OneMemberPrintsAlike(f.done[0], FrameKind(f), FrameKind(WithSeparator(f, kind)));
    }
  }

  lemma {:induction false} CloseInner(frames: seq<Frame>, clean: seq<Token>, quant: Quant)
    requires ExplainsComplete(frames, clean)
    ensures IsParticle(Closed(Innermost(frames), quant))
    ensures |frames| == 1 ==> clean + [CloseToken(quant)] == PrintModel(Closed(Innermost(frames), quant))
    ensures |frames| > 1 ==>
              ExplainsComplete(AddMember(frames[..|frames| - 1], Closed(Innermost(frames), quant)),
                  clean + [CloseToken(quant)])
  {
    var outer, f := frames[..|frames| - 1], Innermost(frames);
    var c := Closed(f, quant);
    assert PrintParticle(c) == PrintComplete(f) + [CloseToken(quant)];
    if |frames| > 1 {
      AddParticle(outer, PrintOuter(outer), c);
      assert PrintOuter(outer) + PrintParticle(c) == clean + [CloseToken(quant)];
    } else {
      assert outer == [];
    }
  }

  predicate IsNameToken(tok: Token) {
    tok.Name? || tok.PrefixedName? || tok.NameQuestion? || tok.NameAsterisk? || tok.NamePlus?
  }

  function NameQuant(tok: Token): Quant {
    if tok.NameQuestion? then QOpt else if tok.NameAsterisk? then QRep else if tok.NamePlus? then QPlus else QNone
  }

  function CloseQuant(tok: Token): Quant {
    if tok.CloseParenQuestion? then QOpt else if tok.CloseParenAsterisk? then QRep
    else if tok.CloseParenPlus? then QPlus else QNone
  }

  /** A token that can stand in the content of one declaration, parameter entities replaced.  The
      tokenizer finds a prefixed name only at a colon; without namespace processing a name with a
      colon is an ordinary name. */
  predicate InDeclared(tok: Token) {
    !tok.DeclCloseTok? && !tok.ParamEntityRef? && (tok.PrefixedName? ==> ':' in tok.text)
  }

  /** The token that stands for both kinds of a name with a colon. */
  function Canonical(tok: Token): Token {
    if tok.Name? && ':' in tok.text then PrefixedName(tok.text) else tok
  }

  predicate InContent(tok: Token) { InDeclared(tok) && Canonical(tok) == tok }

  ghost predicate Explained(p: Parse, clean: seq<Token>) {
    Explains(p.st.handler, p.st.level, p.b, clean)
  }

  lemma {:induction false} StuckFails(p: Parse, i: nat, tok: Token)
    requires p.st.handler == Element(i) && !tok.ParamEntityRef?
    requires ElementMove(i, tok, p.st.level).Stuck?
    ensures Feed(p, tok).st.handler.Error?
  {
  }

  /** Inside one element declaration. */
  ghost predicate InDeclaration(st: State) {
    st.handler.Element? || st.handler.Error? || (st.handler.DeclClose? && st.roleNone == RElementNone)
  }

  lemma {:induction false} BlankChangesNothing(p: Parse)
    requires InDeclaration(p.st)
    ensures Feed(p, S) == p
  {
  }

  lemma {:induction false} StaysInDeclaration(p: Parse, tok: Token)
    requires InDeclaration(p.st) && !tok.DeclCloseTok?
    ensures InDeclaration(Feed(p, tok).st)
  {
    if p.st.handler.Element? {
      ElementMoveShape(p.st.handler.i, tok, p.st.level);
    }
  }

  lemma {:induction false} OpenStep(p: Parse, clean: seq<Token>, frames: seq<Frame>)
    requires Ready(p, frames) && ExplainsExpecting(frames, clean) && |frames| + 1 < WRAP
    ensures Explained(Feed(p, OpenParen), clean + [OpenParen])
  {
    var q := ReadOpen(p, frames);
    OpenGroup(frames, clean);
  }

  lemma {:induction false} NameStep(p: Parse, clean: seq<Token>, frames: seq<Frame>, c: Content)
    requires Ready(p, frames) && ExplainsExpecting(frames, clean)
    requires c == Content(KName, c.quant, c.name, [])
    ensures Explained(Feed(p, NameToken(c.name, c.quant)), clean + [NameToken(c.name, c.quant)])
  {
    var q := ReadName(p, frames, c);
    AddParticle(frames, clean, c);
  }

  lemma {:induction false} MemberStep(p: Parse, clean: seq<Token>, frames: seq<Frame>, tok: Token)
    requires Ready(p, frames) && ExplainsExpecting(frames, clean) && |frames| + 1 < WRAP
    requires InContent(tok) && (tok.OpenParen? || IsNameToken(tok))
    ensures Explained(Feed(p, tok), clean + [tok])
  {
    if tok.OpenParen? {
      OpenStep(p, clean, frames);
    } else {
      NameIsPrinted(tok);
      NameStep(p, clean, frames, Content(KName, NameQuant(tok), tok.text, []));
    }
  }

  lemma {:induction false} NameIsPrinted(tok: Token)
    requires IsNameToken(tok) && InContent(tok)
    ensures tok == NameToken(tok.text, NameQuant(tok))
  {
  }

  lemma {:induction false} OtherTokensAreStuck(i: nat, tok: Token, level: nat)
    requires !tok.S? && !tok.OpenParen? && !IsNameToken(tok)
    requires i == 6 || (i == 2 && !(tok.PoundName? && tok.text == "PCDATA"))
    ensures ElementMove(i, tok, level).Stuck?
  {
  }

  lemma {:induction false} Element6Step(p: Parse, clean: seq<Token>, tok: Token)
    requires p.st.handler == Element(6) && Explained(p, clean) && p.b.Open?
    requires p.st.level + 1 < WRAP && InContent(tok) && !tok.S?
    ensures Explained(Feed(p, tok), clean + [tok])
  {
    if tok.OpenParen? || IsNameToken(tok) {
      MemberStep(p, clean, p.b.frames, tok);
    } else {
      OtherTokensAreStuck(6, tok, p.st.level);
      StuckFails(p, 6, tok);
    }
  }

  lemma {:induction false} Element2Step(p: Parse, clean: seq<Token>, tok: Token)
    requires p.st.handler == Element(2) && Explained(p, clean) && p.b.Open?
    requires InContent(tok) && !tok.S?
    ensures Explained(Feed(p, tok), clean + [tok])
  {
    if tok.OpenParen? || IsNameToken(tok) {
      assert [NewFrame][..0] == [];
      assert PrintOuter([NewFrame]) == [OpenParen];
      MemberStep(p, clean, p.b.frames, tok);
    } else if tok.PoundName? && tok.text == "PCDATA" {
      var q := ReadPcdata(p);
    } else {
      OtherTokensAreStuck(2, tok, p.st.level);
      StuckFails(p, 2, tok);
    }
  }

  lemma {:induction false} GroupEndStep(p: Parse, clean: seq<Token>, quant: Quant)
    requires p.st.handler == Element(7) && Explained(p, clean) && p.b.Open? && p.st.level < WRAP
    ensures Explained(Feed(p, CloseToken(quant)), clean + [CloseToken(quant)])
  {
    hide Feed;
    var frames := p.b.frames;
    CloseInner(frames, clean, quant);
    var q := ReadClose(p, frames, quant);
    if |frames| == 1 {
      OuterGroupEnds(q, frames, clean + [CloseToken(quant)], quant);
    } else {
      InnerGroupEnds(q, frames, clean + [CloseToken(quant)], quant);
    }
  }

  lemma {:induction false} OuterGroupEnds(q: Parse, frames: seq<Frame>, clean: seq<Token>, quant: Quant)
    requires |frames| == 1 && q.st.handler.DeclClose? && q.b == CloseTop(frames, quant)
    requires IsParticle(Closed(Innermost(frames), quant)) && Complete(Innermost(frames))
    requires clean == PrintModel(Closed(Innermost(frames), quant))
    ensures Explained(q, clean)
  {
  }

  lemma {:induction false} InnerGroupEnds(q: Parse, frames: seq<Frame>, clean: seq<Token>, quant: Quant)
    requires |frames| > 1 && q.st.handler == Element(7) && q.b == CloseTop(frames, quant)
    requires q.st.level == |frames| - 1
    requires ExplainsComplete(AddMember(frames[..|frames| - 1], Closed(Innermost(frames), quant)), clean)
    ensures Explained(q, clean)
  {
  }

  lemma {:induction false} SeparatorStep(p: Parse, clean: seq<Token>, kind: Kind)
    requires p.st.handler == Element(7) && Explained(p, clean) && p.b.Open?
    requires kind.KSeq? || kind.KChoice?
    ensures Explained(Feed(p, Separator(kind)), clean + [Separator(kind)])
  {
    var frames := p.b.frames;
    var outer, f := frames[..|frames| - 1], Innermost(frames);
    if f.conn == (if kind.KChoice? then ',' else '|') {
      MixedSeparatorsFail(p, kind);
    } else {
      assert frames == outer + [f];
      var q := ReadSeparator(p, outer, f, kind);
      AddSeparator(frames, clean, kind);
      assert SetTop(frames, WithSeparator(f, kind)) == outer + [WithSeparator(f, kind)];
    }
  }

  /** A group that mixes the two separators is rejected. */
  lemma {:induction false} MixedSeparatorsFail(p: Parse, kind: Kind)
    requires p.st.handler == Element(7) && p.b.Open? && p.b.frames != [] && (kind.KSeq? || kind.KChoice?)
    requires Innermost(p.b.frames).conn == (if kind.KChoice? then ',' else '|')
    ensures Feed(p, Separator(kind)).b.Failed?
  {
  }

  lemma {:induction false} Element7Step(p: Parse, clean: seq<Token>, tok: Token)
    requires p.st.handler == Element(7) && Explained(p, clean) && p.b.Open? && p.st.level < WRAP
    requires InContent(tok) && !tok.S?
    ensures Explained(Feed(p, tok), clean + [tok])
  {
    if ClosesGroup(tok) {
      assert tok == CloseToken(CloseQuant(tok));
      GroupEndStep(p, clean, CloseQuant(tok));
    } else if tok.Comma? {
      SeparatorStep(p, clean, KSeq);
    } else if tok.Or? {
      SeparatorStep(p, clean, KChoice);
    } else {
      StuckFails(p, 7, tok);
    }
  }

  lemma {:induction false} Element1Step(p: Parse, clean: seq<Token>, tok: Token)
    requires p.st.handler == Element(1) && Explained(p, clean) && p.b.Open?
    requires InContent(tok) && !tok.S?
    ensures Explained(Feed(p, tok), clean + [tok])
  {
    if tok.OpenParen? {
      var q := ReadFirstOpen(p);
    } else if tok.Name? && (tok.text == "EMPTY" || tok.text == "ANY") {
      assert clean + [tok] == [tok];
    } else {
      StuckFails(p, 1, tok);
    }
  }

  lemma {:induction false} MixedOrStep(p: Parse, cs: seq<Content>, clean: seq<Token>)
    requires InNames(p, cs) && ExplainsNames([Frame(KMixed, '\0', cs)], clean)
    ensures Explained(Feed(p, Or), clean + [Or])
  {
    var q := ReadMixedOr(p, cs);
    assert (clean + [Or])[..|clean + [Or]| - 1] == clean;
  }

  lemma {:induction false} MixedNameStep(p: Parse, cs: seq<Content>, clean: seq<Token>, c: Content)
    requires p.st.handler == Element(4) && p.b == Open([Frame(KMixed, '\0', cs)])
    requires ExplainsNames([Frame(KMixed, '\0', cs)], clean)
    requires c == Content(KName, QNone, c.name, [])
    ensures Explained(Feed(p, NameToken(c.name, QNone)), clean + [Or] + [NameToken(c.name, QNone)])
  {
    var q := ReadMixedName(p, cs, c);
    OneMoreName(cs, clean, c);
  }

  lemma {:induction false} OneMoreName(cs: seq<Content>, clean: seq<Token>, c: Content)
    requires ExplainsNames([Frame(KMixed, '\0', cs)], clean)
    requires c == Content(KName, QNone, c.name, [])
    ensures ExplainsNames([Frame(KMixed, '\0', cs + [c])], clean + [Or] + [NameToken(c.name, QNone)])
  {
    LastNameIsPrinted(cs, c);
    var intro := [OpenParen, PoundName("PCDATA")];
    assert clean + [Or] + [NameToken(c.name, QNone)] == intro + (PrintNames(cs) + [Or, NameToken(c.name, QNone)]);
  }

  lemma {:induction false} LastNameIsPrinted(cs: seq<Content>, c: Content)
    ensures PrintNames(cs + [c]) == PrintNames(cs) + [Or, NameToken(c.name, QNone)]
  {
    assert (cs + [c])[..|cs|] == cs;
  }

  lemma {:induction false} MixedEndStep(p: Parse, cs: seq<Content>, clean: seq<Token>, quant: Quant)
    requires InNames(p, cs) && ExplainsNames([Frame(KMixed, '\0', cs)], clean)
    requires quant.QRep? || (quant.QNone? && cs == [])
    ensures Explained(Feed(p, CloseToken(quant)), clean + [CloseToken(quant)])
  {
    var m := Content(KMixed, quant, "", cs);
    var q := ReadMixedClose(p, m);
  }

  lemma {:induction false} MixedStep(p: Parse, i: nat, clean: seq<Token>, tok: Token)
    requires 3 <= i <= 5 && p.st.handler == Element(i) && Explained(p, clean) && p.b.Open?
    requires InContent(tok) && !tok.S?
    ensures Explained(Feed(p, tok), clean + [tok])
  {
    var cs := p.b.frames[0].done;
    assert p.b.frames == [Frame(KMixed, '\0', cs)];
    if i == 4 {
      if tok.Name? || tok.PrefixedName? {
        NameIsPrinted(tok);
        var before := clean[..|clean| - 1];
        assert clean == before + [Or];
        MixedNameStep(p, cs, before, Content(KName, QNone, tok.text, []));
      } else {
        StuckFails(p, i, tok);
      }
    } else if tok.Or? {
      MixedOrStep(p, cs, clean);
    } else if tok.CloseParenAsterisk? || (i == 3 && tok.CloseParen?) {
      MixedEndStep(p, cs, clean, CloseQuant(tok));
    } else {
      StuckFails(p, i, tok);
    }
  }

  lemma {:induction false} NothingAfterTheEnd(p: Parse, tok: Token)
    requires p.st.handler.DeclClose? && !tok.S? && !tok.DeclCloseTok? && !tok.ParamEntityRef?
    ensures Feed(p, tok).st.handler.Error?
  {
  }

  lemma {:induction false} FailureStays(p: Parse, tok: Token)
    ensures p.st.handler.Error? ==> Feed(p, tok).st.handler.Error?
    ensures p.b.Failed? ==> Feed(p, tok).b.Failed?
  {
  }

  /** One more token keeps the explanation. */
  lemma {:induction false} ContentStep(p: Parse, clean: seq<Token>, tok: Token)
    requires Explained(p, clean) && InContent(tok) && !tok.S?
    requires p.st.handler.Element? && p.b.Open? ==> |p.b.frames| + 1 < WRAP
    ensures Explained(Feed(p, tok), clean + [tok])
  {
    if p.st.handler.Error? || p.b.Failed? {
      FailureStays(p, tok);
    } else if p.st.handler.DeclClose? {
      NothingAfterTheEnd(p, tok);
    } else if p.st.handler.i == 1 {
      Element1Step(p, clean, tok);
    } else if p.st.handler.i == 2 {
      Element2Step(p, clean, tok);
    } else if p.st.handler.i <= 5 {
      MixedStep(p, p.st.handler.i, clean, tok);
    } else if p.st.handler.i == 6 {
      Element6Step(p, clean, tok);
    } else {
      Element7Step(p, clean, tok);
    }
  }

  /** The tokens without the blanks, and with one form for names with a colon. */
  function NoBlanks(toks: seq<Token>): seq<Token> {
    if toks == [] then []
    else NoBlanks(toks[..|toks| - 1]) + if toks[|toks| - 1].S? then [] else [Canonical(toks[|toks| - 1])]
  }

  /** Every printed frame has at least one token, so nesting is bounded by what was read. */
  lemma {:induction false} FramesAreFewerThanTokens(frames: seq<Frame>)
    ensures |frames| <= |PrintOuter(frames)|
  {
    if frames != [] {
      FramesAreFewerThanTokens(frames[..|frames| - 1]);
    }
  }

  lemma {:induction false} NestingIsBounded(p: Parse, clean: seq<Token>)
    requires Explained(p, clean) && p.st.handler.Element? && p.b.Open?
    ensures |p.b.frames| <= |clean|
  {
    var frames := p.b.frames;
    if p.st.handler.i == 6 {
      FramesAreFewerThanTokens(frames);
    } else if p.st.handler.i == 7 {
      FramesAreFewerThanTokens(frames[..|frames| - 1]);
    }
  }

  lemma {:induction false} BlanksAreSkipped(p: Parse, toks: seq<Token>) returns (q: Parse)
    requires InDeclaration(p.st)
    requires forall t | t in toks :: !t.DeclCloseTok?
    ensures InDeclaration(q.st) && Reads(p, toks, q) && Reads(p, NoBlanks(toks), q)
  {
    hide Feed;
    if toks == [] {
      ReadsNothing(p);
      q := p;
      assert NoBlanks(toks) == [];
    } else {
      var before, tok := toks[..|toks| - 1], toks[|toks| - 1];
      var q0 := BlanksAreSkipped(p, before);
      assert before + [tok] == toks;
      if tok.S? {
        ReadBlank(q0);
        q := q0;
        assert NoBlanks(toks) == NoBlanks(before);
      } else {
        q := ReadAny(q0, tok);
        ReadsConcat(p, NoBlanks(before), q0, [Canonical(tok)], q);
        assert NoBlanks(toks) == NoBlanks(before) + [Canonical(tok)];
      }
      ReadsConcat(p, before, q0, [tok], q);
    }
  }

  lemma {:induction false} ReadBlank(p: Parse)
    requires InDeclaration(p.st)
    ensures Reads(p, [S], p)
  {
    ReadsOne(p, S);
    BlankChangesNothing(p);
  }

  lemma {:induction false} ReadAny(p: Parse, tok: Token) returns (q: Parse)
    requires InDeclaration(p.st) && !tok.DeclCloseTok?
    ensures InDeclaration(q.st) && Reads(p, [tok], q) && Reads(p, [Canonical(tok)], q)
  {
    StaysInDeclaration(p, tok);
    ReadsOne(p, tok);
    ReadsOne(p, Canonical(tok));
    CanonicalReadsAlike(p, tok);
    q := Feed(p, tok);
  }

  lemma {:induction false} CanonicalReadsAlike(p: Parse, tok: Token)
    requires InDeclaration(p.st)
    ensures Feed(p, Canonical(tok)) == Feed(p, tok)
  {
    if p.st.handler.Element? && tok.Name? && ':' in tok.text {
      CanonicalMovesAlike(p.st.handler.i, tok, p.st.level);
    }
  }

  lemma {:induction false} CanonicalMovesAlike(i: nat, tok: Token, level: nat)
    requires tok.Name? && ':' in tok.text
    ensures ElementMove(i, PrefixedName(tok.text), level) == ElementMove(i, tok, level)
  {
  }

  lemma {:induction false} RunIsExplained(p: Parse, toks: seq<Token>)
    requires AtContent(p) && |toks| + 1 < WRAP
    requires forall t | t in toks :: InContent(t) && !t.S?
    ensures Explained(FeedAll(p, toks), toks)
  {
    hide Feed;
    hide Explained;
    if toks == [] {
      StartIsExplained(p);
      assert FeedAll(p, toks) == p;
    } else {
      var before, tok := toks[..|toks| - 1], toks[|toks| - 1];
      RunIsExplained(p, before);
      var q := FeedAll(p, before);
      if q.st.handler.Element? && q.b.Open? {
        NestingIsBounded(q, before);
      }
      ContentStep(q, before, tok);
      assert before + [tok] == toks;
    }
  }

  lemma {:induction false} StartIsExplained(p: Parse)
    requires AtContent(p)
    ensures Explained(p, [])
  {
  }

  lemma {:induction false} NoBlankIsLeft(toks: seq<Token>)
    requires forall t | t in toks :: InDeclared(t)
    ensures |NoBlanks(toks)| <= |toks|
    ensures forall t | t in NoBlanks(toks) :: InContent(t) && !t.S?
  {
    if toks != [] {
      NoBlankIsLeft(toks[..|toks| - 1]);
    }
  }

  /** The content of a declaration is accepted, giving the model m, exactly when its tokens are the
      printed form of m with blanks anywhere between them. */
  lemma {:induction false} AcceptsExactlyPrintedModels(p: Parse, toks: seq<Token>, m: Content)
    requires AtContent(p) && |toks| + 1 < WRAP
    requires forall t | t in toks :: InDeclared(t)
    ensures Accepted(FeedAll(p, toks), m) <==> IsModel(m) && NoBlanks(toks) == PrintModel(m)
  {
    var clean := NoBlanks(toks);
    var q := BlanksAreSkipped(p, toks);
    ReadsIsFeedAll(p, toks, q);
    ReadsIsFeedAll(p, clean, q);
    NoBlankIsLeft(toks);
    RunIsExplained(p, clean);
    if IsModel(m) && clean == PrintModel(m) {
      ModelIsRead(p, m);
    }
  }

  /** Different models are printed differently. */
  lemma {:induction false} PrintingIsInjective(p: Parse, m: Content, m': Content)
    requires AtContent(p) && IsModel(m) && IsModel(m') && |PrintModel(m)| < WRAP
    requires PrintModel(m) == PrintModel(m')
    ensures m == m'
  {
    ModelIsRead(p, m);
    ModelIsRead(p, m');
  }
}
