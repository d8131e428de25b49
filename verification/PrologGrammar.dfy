/** The prolog of a document and the external subset, token by token: which tokens the prolog machine
    accepts around the declarations, in what order, and what it reports for conditional sections
    (xmlrole.c, prolog0 to prolog2, doctype0 to doctype5, internalSubset, externalSubset and condSect). */
module PrologGrammar {
  import opened Prolog
  import opened PrologRuns
  import opened Declarations

  // ----- the parts of a prolog -----

  predicate AllBom(toks: seq<Token>) {
    forall t | t in toks :: t.BOM?
  }

  predicate IsMiscToken(t: Token) { t.S? || t.PI? || t.Comment? }

  /** In front of a document type declaration: an XML declaration may be the first token. */
  ghost predicate Before(toks: seq<Token>) {
    AllBom(toks) || exists b: nat :: BegunAt(toks, b)
  }

  /** The first token that is no byte order mark stands at place b. */
  predicate BegunAt(toks: seq<Token>, b: nat) {
    && b < |toks| && AllBom(toks[..b]) && (IsMiscToken(toks[b]) || toks[b].XmlDecl?)
    && forall k | b < k < |toks| :: IsMiscToken(toks[k]) || toks[k].BOM?
  }

  /** The tokens that are no blanks. */
  function Solid(toks: seq<Token>): seq<Token> {
    if |toks| == 0 then []
    else
      var before, last := Solid(toks[..|toks| - 1]), toks[|toks| - 1];
      if last.S? then before else before + [last]
  }

  /** A document type declaration up to its external identifier: handler j has read this much of it. */
  predicate HeadAt(j: nat, d: seq<Token>) {
    && |d| > 0 && d[0] == DeclOpen("DOCTYPE") && (j > 0 ==> |d| > 1 && IsNameToken(d[1]))
    && match j
       case 0 => |d| == 1
       case 1 => |d| == 2
       case 2 => |d| == 3 && d[2] == Name("PUBLIC")
       case 3 => (|d| == 3 && d[2] == Name("SYSTEM")) || (|d| == 4 && d[2] == Name("PUBLIC") && d[3].Literal?)
       case 4 =>
         || (|d| == 4 && d[2] == Name("SYSTEM") && d[3].Literal?)
         || (|d| == 5 && d[2] == Name("PUBLIC") && d[3].Literal? && d[4].Literal?)
       case _ => false
  }

  /** A name alone, or with an external identifier. */
  predicate Head(d: seq<Token>) {
    HeadAt(1, Solid(d)) || HeadAt(4, Solid(d))
  }

  /** Handlers of the internal subset and of what is declared there. */
  predicate InSubset(h: Handler) {
    h.InternalSubset? || h.Entity? || h.Notation? || h.Attlist? || h.Element? || h.DeclClose?
  }

  /** From the start of an internal subset these tokens do not leave it. */
  predicate StaysInSubset(st: State, toks: seq<Token>) {
    forall k | 0 <= k <= |toks| :: InSubset(Run(At(st, InternalSubset), toks[..k]).handler)
  }

  /** The internal subset, from its '[' at place m. */
  predicate SubsetOpenAt(st: State, d: seq<Token>, m: nat) {
    m < |d| && Head(d[..m]) && d[m].OpenBracket? && StaysInSubset(st, d[m + 1..])
  }

  /** The internal subset between its brackets, at places m and q; blanks behind it. */
  predicate SubsetClosedAt(st: State, d: seq<Token>, m: nat, q: nat) {
    && m < q < |d| && SubsetOpenAt(st, d[..q], m) && Run(At(st, InternalSubset), d[m + 1..q]).handler.InternalSubset?
    && d[q].CloseBracket? && forall k | q < k < |d| :: d[k].S?
  }

  ghost predicate IsDoctypeBody(st: State, d: seq<Token>) {
    Head(d) || exists m: nat, q: nat :: SubsetClosedAt(st, d, m, q)
  }

  /** A document type declaration, from its opening to its '>'. */
  ghost predicate IsDoctype(st: State, d: seq<Token>) {
    |d| > 1 && !d[0].S? && d[|d| - 1].DeclCloseTok? && IsDoctypeBody(st, d[..|d| - 1])
  }

  /** The document type declaration stands at places k to m. */
  ghost predicate DoctypeStands(st: State, toks: seq<Token>, k: nat, m: nat) {
    && k <= m <= |toks| && Before(toks[..k]) && IsDoctype(st, toks[k..m])
    && forall j | m <= j < |toks| :: IsMiscToken(toks[j])
  }

  /** A prolog: at most one document type declaration, with white space, instructions and comments around it. */
  ghost predicate IsProlog(st: State, toks: seq<Token>) {
    Before(toks) || exists k: nat, m: nat :: DoctypeStands(st, toks, k, m)
  }

  // ----- one token -----

  lemma {:induction false} PrologStep(st: State, tok: Token)
    requires st.handler.Prolog? && st.documentEntity
    ensures var i, next := st.handler.i, Next(st, tok).0;
            if IsMiscToken(tok) || (tok.XmlDecl? && i == 0) then next == At(st, Handler.Prolog(if i == 0 then 1 else i))
            else if tok.BOM? && i != 2 then next == st
            else if tok == DeclOpen("DOCTYPE") && i != 2 then next == At(st, Handler.Doctype(0))
            else next.handler.Error?
  {
  }

  lemma {:induction false} DoctypeStep(st: State, tok: Token, d: seq<Token>)
    requires st.handler.Doctype? && st.documentEntity && HeadAt(st.handler.i, d)
    ensures var j, next := st.handler.i, Next(st, tok).0;
            && j <= 4
            && (next.handler.Doctype? ==> next.handler.i <= 4)
            && if tok.S? then next == st
               else if (j == 1 || j == 4) && tok.OpenBracket? then next == At(st, InternalSubset)
               else if (j == 1 || j == 4) && tok.DeclCloseTok? then next == At(st, Handler.Prolog(2))
               else next.handler.Error? || (next.handler.Doctype? && next == At(st, next.handler)
                                            && HeadAt(next.handler.i, d + [tok]))
  {
  }

  lemma {:induction false} ClosingStep(st: State, tok: Token)
    requires st.handler == Handler.Doctype(5) && st.documentEntity
    ensures var next := Next(st, tok).0;
            if tok.S? then next == st
            else if tok.DeclCloseTok? then next == At(st, Handler.Prolog(2))
            else next.handler.Error?
  {
  }

  /** The tables of declarations lead from declaration to declaration, and back to the subset. */
  predicate MovesInside(m: Move) {
    m.Go? ==> InSubset(m.to)
  }

  lemma {:induction false} TablesMoveInside(i: nat, tok: Token, level: nat)
    ensures MovesInside(EntityMove(i, tok)) && MovesInside(NotationMove(i, tok))
    ensures MovesInside(AttlistMove(i, tok)) && MovesInside(ElementMove(i, tok, level))
  {
  }

  lemma {:induction false} FollowsInside(st: State, tok: Token, move: Move)
    requires st.documentEntity && MovesInside(move)
    ensures InSubset(Follow(st, tok, move).0.handler) || Follow(st, tok, move).0.handler.Error?
  {
  }

  lemma {:induction false} SubsetStep(st: State, tok: Token)
    requires InSubset(st.handler) && st.documentEntity
    ensures var next := Next(st, tok).0;
            if st.handler.InternalSubset? && tok.CloseBracket? then next == At(st, Handler.Doctype(5))
            else InSubset(next.handler) || next.handler.Error?
  {
    hide EntityMove;
    hide NotationMove;
    hide AttlistMove;
    hide ElementMove;
    hide Follow;
    match st.handler
    case Entity(i) => TablesMoveInside(i, tok, 0); FollowsInside(st, tok, EntityMove(i, tok));
    case Notation(i) => TablesMoveInside(i, tok, 0); FollowsInside(st, tok, NotationMove(i, tok));
    case Attlist(i) => TablesMoveInside(i, tok, 0); FollowsInside(st, tok, AttlistMove(i, tok));
    case Element(i) =>
      TablesMoveInside(i, tok, st.level);
      FollowsInside(st.(level := NextLevel(i, tok, st.level)), tok, ElementMove(i, tok, st.level));
    case InternalSubset => SubsetItself(st, tok);
    case DeclClose => DeclarationEnd(st, tok);
  }

  lemma {:induction false} SubsetItself(st: State, tok: Token)
    requires st.handler == InternalSubset && st.documentEntity
    ensures var next := Next(st, tok).0;
            if tok.CloseBracket? then next == At(st, Handler.Doctype(5)) else InSubset(next.handler) || next.handler.Error?
  {
  }

  lemma {:induction false} DeclarationEnd(st: State, tok: Token)
    requires st.handler == DeclClose && st.documentEntity
    ensures var next := Next(st, tok).0; InSubset(next.handler) || next.handler.Error?
  {
  }

  // ----- what the machine has accepted is a prolog -----

  ghost predicate DoctypeBegun(toks: seq<Token>, k: nat, j: nat) {
    k < |toks| && Before(toks[..k]) && !toks[k].S? && HeadAt(j, Solid(toks[k..]))
  }

  ghost predicate SubsetBegun(st: State, toks: seq<Token>, k: nat, m: nat) {
    && k < |toks| && Before(toks[..k]) && !toks[k].S? && SubsetOpenAt(st, toks[k..], m)
    && Run(st, toks) == Run(At(st, InternalSubset), toks[k..][m + 1..])
  }

  ghost predicate SubsetEnded(st: State, toks: seq<Token>, k: nat, m: nat, q: nat) {
    k < |toks| && Before(toks[..k]) && !toks[k].S? && SubsetClosedAt(st, toks[k..], m, q)
  }

  /** What has been read, by the handler the machine is in. */
  ghost predicate Accounted(st: State, toks: seq<Token>) {
    var s := Run(st, toks);
    match s.handler
    case Prolog(i) =>
      if i == 2 then exists k: nat, m: nat :: DoctypeStands(st, toks, k, m)
      else i <= 1 && s == At(st, Handler.Prolog(i)) && Before(toks) && (i == 0 <==> AllBom(toks))
    case Doctype(j) =>
      if j == 5 then exists k: nat, m: nat, q: nat :: SubsetEnded(st, toks, k, m, q)
      else j <= 4 && s == At(st, Handler.Doctype(j)) && exists k: nat :: DoctypeBegun(toks, k, j)
    case Error => true
    case _ => InSubset(s.handler) && exists k: nat, m: nat :: SubsetBegun(st, toks, k, m)
  }

  lemma {:induction false} RunLast(st: State, toks: seq<Token>, tok: Token)
    ensures Run(st, toks + [tok]) == Next(Run(st, toks), tok).0
  {
    hide Next;
    assert (toks + [tok])[..|toks|] == toks;
  }

  lemma {:induction false} SolidLast(toks: seq<Token>, tok: Token)
    ensures Solid(toks + [tok]) == if tok.S? then Solid(toks) else Solid(toks) + [tok]
  {
    assert (toks + [tok])[..|toks|] == toks;
  }

  lemma {:induction false} RestLast(toks: seq<Token>, tok: Token, k: nat)
    requires k <= |toks|
    ensures (toks + [tok])[k..] == toks[k..] + [tok] && (toks + [tok])[..k] == toks[..k]
  {
  }

  lemma {:induction false} BeforeGrows(toks: seq<Token>, tok: Token)
    requires Before(toks)
    requires tok.BOM? || IsMiscToken(tok) || (tok.XmlDecl? && AllBom(toks))
    ensures Before(toks + [tok]) && (AllBom(toks + [tok]) <==> AllBom(toks) && tok.BOM?)
  {
    var all := toks + [tok];
    assert all[|toks|] == tok && forall k | 0 <= k < |toks| :: all[k] == toks[k];
    if AllBom(toks) {
      assert all[..|toks|] == toks;
      if !tok.BOM? {
        assert BegunAt(all, |toks|);
        assert all[|toks|] in all;
      }
    } else {
      var b: nat :| BegunAt(toks, b);
      assert all[..b] == toks[..b];
      assert BegunAt(all, b);
      assert toks[b] in all;
    }
  }

  lemma {:induction false} NoTokens(st: State)
    ensures Run(st, []) == st && Before([]) && AllBom([])
  {
  }

  lemma {:induction false} FromProlog(st: State, toks: seq<Token>, tok: Token)
    requires st.handler == Handler.Prolog(0) && st.documentEntity
    requires Accounted(st, toks) && Run(st, toks).handler.Prolog? && Run(st, toks).documentEntity
    ensures Accounted(st, toks + [tok])
  {
    hide Next;
    hide Before;
    hide Run;
    hide DoctypeStands;
    hide DoctypeBegun;
    var s := Run(st, toks);
    RunLast(st, toks, tok);
    PrologStep(s, tok);
    if s.handler.i == 2 {
      if IsMiscToken(tok) {
        MiscBehind(st, toks, tok);
      }
    } else if tok == DeclOpen("DOCTYPE") {
      DoctypeBegins(toks, tok);
    } else if tok.BOM? || IsMiscToken(tok) || (tok.XmlDecl? && AllBom(toks)) {
      BeforeGrows(toks, tok);
    }
  }

  lemma {:induction false} MiscBehind(st: State, toks: seq<Token>, tok: Token)
    requires IsMiscToken(tok) && exists k: nat, m: nat :: DoctypeStands(st, toks, k, m)
    ensures exists k: nat, m: nat :: DoctypeStands(st, toks + [tok], k, m)
  {
    hide IsDoctype;
    hide Before;
    var all := toks + [tok];
    var k: nat, m: nat :| DoctypeStands(st, toks, k, m);
    assert all[..k] == toks[..k] && all[k..m] == toks[k..m];
    assert DoctypeStands(st, all, k, m);
  }

  lemma {:induction false} DoctypeBegins(toks: seq<Token>, tok: Token)
    requires Before(toks) && tok == DeclOpen("DOCTYPE")
    ensures DoctypeBegun(toks + [tok], |toks|, 0)
  {
    hide Before;
    RestLast(toks, tok, |toks|);
    assert toks[|toks|..] == [] && toks[..|toks|] == toks;
    SolidLast([], tok);
    assert [] + [tok] == [tok];
  }

  lemma {:induction false} FromDoctype(st: State, toks: seq<Token>, tok: Token)
    requires st.handler == Handler.Prolog(0) && st.documentEntity
    requires Accounted(st, toks) && Run(st, toks).handler.Doctype? && Run(st, toks).handler.i != 5
    requires Run(st, toks).documentEntity
    ensures Accounted(st, toks + [tok])
  {
    hide Next;
    hide Before;
    hide HeadAt;
    hide Run;
    var s, all := Run(st, toks), toks + [tok];
    var j := s.handler.i;
    RunLast(st, toks, tok);
    var k: nat :| DoctypeBegun(toks, k, j);
    RestLast(toks, tok, k);
    SolidLast(toks[k..], tok);
    DoctypeStep(s, tok, Solid(toks[k..]));
    if (j == 1 || j == 4) && tok.OpenBracket? {
      SubsetOpens(st, toks, tok, k, j);
    } else if (j == 1 || j == 4) && tok.DeclCloseTok? {
      DoctypeEnds(st, toks, tok, k);
    } else {
      var next := Next(s, tok).0;
      if !next.handler.Error? {
        assert DoctypeBegun(all, k, next.handler.i);
      }
    }
  }

  lemma {:induction false} SubsetOpens(st: State, toks: seq<Token>, tok: Token, k: nat, j: nat)
    requires DoctypeBegun(toks, k, j) && (j == 1 || j == 4) && tok.OpenBracket?
    requires Run(st, toks + [tok]) == At(st, InternalSubset)
    ensures SubsetBegun(st, toks + [tok], k, |toks| - k)
  {
    hide Next;
    hide Before;
    hide HeadAt;
    var all, m := toks + [tok], |toks| - k;
    RestLast(toks, tok, k);
    var d := all[k..];
    assert d[..m] == toks[k..] && d[m + 1..] == [];
  }

  lemma {:induction false} DoctypeEnds(st: State, toks: seq<Token>, tok: Token, k: nat)
    requires k < |toks| && Before(toks[..k]) && !toks[k].S? && IsDoctypeBody(st, toks[k..]) && tok.DeclCloseTok?
    ensures DoctypeStands(st, toks + [tok], k, |toks| + 1)
  {
    hide Before;
    hide IsDoctypeBody;
    var all := toks + [tok];
    RestLast(toks, tok, k);
    var d := all[k..|toks| + 1];
    assert d == all[k..] && d[..|d| - 1] == toks[k..] && d[0] == toks[k];
  }

  lemma {:induction false} FromClosing(st: State, toks: seq<Token>, tok: Token)
    requires Accounted(st, toks) && Run(st, toks).handler == Handler.Doctype(5) && Run(st, toks).documentEntity
    ensures Accounted(st, toks + [tok])
  {
    hide Next;
    hide Before;
    hide Head;
    hide Run;
    var all := toks + [tok];
    RunLast(st, toks, tok);
    ClosingStep(Run(st, toks), tok);
    var k: nat, m: nat, q: nat :| SubsetEnded(st, toks, k, m, q);
    if tok.DeclCloseTok? {
      DoctypeEnds(st, toks, tok, k);
    } else if tok.S? {
      RestLast(toks, tok, k);
      var d := toks[k..];
      assert (d + [tok])[..q] == d[..q] && (d + [tok])[m + 1..q] == d[m + 1..q];
      assert SubsetEnded(st, all, k, m, q);
    }
  }

  lemma {:induction false} StaysMore(st: State, toks: seq<Token>, tok: Token)
    requires StaysInSubset(st, toks) && InSubset(Run(At(st, InternalSubset), toks + [tok]).handler)
    ensures StaysInSubset(st, toks + [tok])
  {
    hide Run;
    var all := toks + [tok];
    forall k | 0 <= k <= |all|
      ensures InSubset(Run(At(st, InternalSubset), all[..k]).handler)
    {
      if k <= |toks| {
        assert all[..k] == toks[..k];
      } else {
        assert all[..k] == all;
      }
    }
  }

  lemma {:induction false} FromSubset(st: State, toks: seq<Token>, tok: Token)
    requires Accounted(st, toks) && InSubset(Run(st, toks).handler) && Run(st, toks).documentEntity
    ensures Accounted(st, toks + [tok])
  {
    hide Next;
    hide Before;
    hide Head;
    hide Run;
    var s, all := Run(st, toks), toks + [tok];
    RunLast(st, toks, tok);
    SubsetStep(s, tok);
    var k: nat, m: nat :| SubsetBegun(st, toks, k, m);
    var d := toks[k..];
    RestLast(toks, tok, k);
    RestLast(d, tok, m + 1);
    RunLast(At(st, InternalSubset), d[m + 1..], tok);
    if s.handler.InternalSubset? && tok.CloseBracket? {
      assert (d + [tok])[..|d|] == d && (d + [tok])[m + 1..|d|] == d[m + 1..];
      assert SubsetEnded(st, all, k, m, |d|);
    } else if !Next(s, tok).0.handler.Error? {
      StaysMore(st, d[m + 1..], tok);
      assert (d + [tok])[..m] == d[..m];
      assert SubsetBegun(st, all, k, m);
    }
  }

  lemma {:induction false} ErrorStays(st: State, toks: seq<Token>, tok: Token)
    requires Run(st, toks).handler.Error?
    ensures Accounted(st, toks + [tok])
  {
    RunLast(st, toks, tok);
  }

  lemma {:induction false} RunKeepsEntity(st: State, toks: seq<Token>)
    ensures Run(st, toks).documentEntity == st.documentEntity
  {
    hide Next;
    if |toks| > 0 {
      RunKeepsEntity(st, toks[..|toks| - 1]);
      FollowKeeps(Run(st, toks[..|toks| - 1]), toks[|toks| - 1]);
    }
  }

  lemma {:induction false} RunIsAccounted(st: State, toks: seq<Token>)
    requires st.handler == Handler.Prolog(0) && st.documentEntity
    ensures Accounted(st, toks)
  {
    if |toks| == 0 {
      NoTokens(st);
    } else {
      hide Accounted;
      hide Run;
      var before, tok := toks[..|toks| - 1], toks[|toks| - 1];
      assert toks == before + [tok];
      RunIsAccounted(st, before);
      RunKeepsEntity(st, before);
      var h := Run(st, before).handler;
      if h.Prolog? {
        FromProlog(st, before, tok);
      } else if h == Handler.Doctype(5) {
        FromClosing(st, before, tok);
      } else if h.Doctype? {
        FromDoctype(st, before, tok);
      } else if h.Error? {
        ErrorStays(st, before, tok);
      } else {
        NotElsewhere(st, before);
        FromSubset(st, before, tok);
      }
    }
  }

  lemma {:induction false} NotElsewhere(st: State, toks: seq<Token>)
    requires Accounted(st, toks)
    ensures var h := Run(st, toks).handler; h.Prolog? || h.Doctype? || h.Error? || InSubset(h)
  {
  }

  // ----- every prolog is accepted -----

  lemma {:induction false} RunJoins(st: State, a: seq<Token>, b: seq<Token>)
    ensures Run(st, a + b) == Run(Run(st, a), b)
    decreases |b|
  {
    hide Next;
    if |b| == 0 {
      assert a + b == a;
    } else {
      assert (a + b)[..|a + b| - 1] == a + b[..|b| - 1];
      RunJoins(st, a, b[..|b| - 1]);
    }
  }

  lemma {:induction false} BeforeIsRead(st: State, toks: seq<Token>)
    requires st.handler == Handler.Prolog(0) && st.documentEntity && Before(toks)
    ensures Run(st, toks) == At(st, Handler.Prolog(if AllBom(toks) then 0 else 1))
  {
    if |toks| > 0 {
      var before, tok := toks[..|toks| - 1], toks[|toks| - 1];
      assert tok in toks && forall t | t in before :: t in toks;
      if !AllBom(toks) {
        var b: nat :| BegunAt(toks, b);
        assert toks[b] in toks;
        if b < |before| {
          assert before[..b] == toks[..b];
          assert BegunAt(before, b);
          assert before[b] in before;
        } else {
          assert before == toks[..b];
        }
      }
      assert Before(before);
      hide Next;
      BeforeIsRead(st, before);
      PrologStep(Run(st, before), tok);
    }
  }

  lemma {:induction false} SolidNotEmpty(d: seq<Token>)
    requires |d| > 0 && !d[0].S?
    ensures |Solid(d)| > 0
  {
    var before := d[..|d| - 1];
    if |d| > 1 {
      SolidNotEmpty(before);
    }
  }

  /** One more token of a head. */
  lemma {:induction false} HeadMoves(st: State, x: seq<Token>, tok: Token, j: nat) returns (i: nat)
    requires st.documentEntity && |x| > 0 && HeadAt(j, x + [tok])
    ensures HeadAt(i, x) && Next(At(st, Handler.Doctype(i)), tok).0 == At(st, Handler.Doctype(j))
  {
    var y := x + [tok];
    assert y[|x|] == tok && y[0] == x[0] && (|x| > 1 ==> y[1] == x[1]) && (|x| > 2 ==> y[2] == x[2]);
    assert |x| > 3 ==> y[3] == x[3];
    i := if |x| == 1 then 0 else if |x| == 2 then 1 else if |x| == 3 && x[2] == Name("PUBLIC") then 2 else 3;
  }

  lemma {:induction false} HeadIsRead(st: State, d: seq<Token>, j: nat)
    requires st.handler.Prolog? && st.handler.i != 2 && st.documentEntity
    requires |d| > 0 && !d[0].S? && HeadAt(j, Solid(d))
    ensures Run(st, d) == At(st, Handler.Doctype(j))
    decreases |d|
  {
    hide Next;
    hide HeadAt;
    var before, tok := d[..|d| - 1], d[|d| - 1];
    assert d == before + [tok];
    SolidLast(before, tok);
    RunLast(st, before, tok);
    if |d| == 1 {
      assert before == [] && Solid(d) == [tok];
      FirstHead(tok, j);
      PrologStep(st, tok);
    } else {
      SolidNotEmpty(before);
      if tok.S? {
        HeadIsRead(st, before, j);
        DoctypeStep(Run(st, before), tok, Solid(before));
      } else {
        var i := HeadMoves(st, Solid(before), tok, j);
        HeadIsRead(st, before, i);
      }
    }
  }

  lemma {:induction false} FirstHead(tok: Token, j: nat)
    requires HeadAt(j, [tok])
    ensures j == 0 && tok == DeclOpen("DOCTYPE")
  {
  }

  lemma {:induction false} HeadClosesOrOpens(st: State, d: seq<Token>)
    requires st.handler.Prolog? && st.handler.i != 2 && st.documentEntity && |d| > 0 && !d[0].S? && Head(d)
    ensures Next(Run(st, d), DeclCloseTok).0 == At(st, Handler.Prolog(2))
    ensures Next(Run(st, d), OpenBracket).0 == At(st, InternalSubset)
  {
    var j := if HeadAt(1, Solid(d)) then 1 else 4;
    HeadIsRead(st, d, j);
    hide Next;
    hide HeadAt;
    DoctypeStep(At(st, Handler.Doctype(j)), DeclCloseTok, Solid(d));
    DoctypeStep(At(st, Handler.Doctype(j)), OpenBracket, Solid(d));
  }

  lemma {:induction false} BlanksAreRead(st: State, toks: seq<Token>)
    requires st.handler == Handler.Doctype(5) && st.documentEntity && forall t | t in toks :: t.S?
    ensures Run(st, toks) == st
  {
    hide Next;
    if |toks| > 0 {
      BlanksAreRead(st, toks[..|toks| - 1]);
      ClosingStep(st, toks[|toks| - 1]);
    }
  }

  lemma {:induction false} MiscIsSkipped(st: State, toks: seq<Token>)
    requires st.handler == Handler.Prolog(2) && st.documentEntity && forall t | t in toks :: IsMiscToken(t)
    ensures Run(st, toks) == st
  {
    hide Next;
    if |toks| > 0 {
      MiscIsSkipped(st, toks[..|toks| - 1]);
      PrologStep(st, toks[|toks| - 1]);
    }
  }

  lemma {:induction false} SubsetIsPassed(st: State, d: seq<Token>, m: nat, q: nat)
    requires st.handler.Prolog? && st.handler.i != 2 && st.documentEntity && |d| > 0 && !d[0].S?
    requires SubsetClosedAt(st, d, m, q)
    ensures Run(st, d).handler == Handler.Doctype(5) && Run(st, d).documentEntity
  {
    hide Next;
    hide Head;
    hide StaysInSubset;
    var inner, blanks := d[m + 1..q], d[q + 1..];
    assert d[..q][..m] == d[..m] && d[..q][m + 1..] == inner && d[..q][m] == d[m];
    HeadNotEmpty(d[..m]);
    assert d[..m][0] == d[0];
    HeadClosesOrOpens(st, d[..m]);
    hide Run;
    RunLast(st, d[..m], d[m]);
    RunJoins(st, d[..m] + [d[m]], inner);
    var s := Run(At(st, InternalSubset), inner);
    RunKeepsEntity(At(st, InternalSubset), inner);
    SubsetStep(s, d[q]);
    RunLast(st, d[..m] + [d[m]] + inner, d[q]);
    RunJoins(st, d[..m] + [d[m]] + inner + [d[q]], blanks);
    assert d == d[..m] + [d[m]] + inner + [d[q]] + blanks;
    BlanksAreRead(At(s, Handler.Doctype(5)), blanks);
  }

  lemma {:induction false} HeadNotEmpty(d: seq<Token>)
    requires Head(d)
    ensures |d| > 0
  {
  }

  lemma {:induction false} DoctypeIsPassed(st: State, d: seq<Token>)
    requires st.handler.Prolog? && st.handler.i != 2 && st.documentEntity && IsDoctype(st, d)
    ensures Run(st, d).handler == Handler.Prolog(2) && Run(st, d).documentEntity
  {
    hide Next;
    hide Run;
    hide Head;
    hide SubsetClosedAt;
    var body := d[..|d| - 1];
    assert d == body + [DeclCloseTok];
    RunLast(st, body, DeclCloseTok);
    if Head(body) {
      HeadClosesOrOpens(st, body);
    } else {
      var m: nat, q: nat :| SubsetClosedAt(st, body, m, q);
      SubsetIsPassed(st, body, m, q);
      ClosingStep(Run(st, body), DeclCloseTok);
    }
  }

  lemma {:induction false} DoctypeAmongMisc(st: State, toks: seq<Token>, k: nat, m: nat)
    requires st.handler == Handler.Prolog(0) && st.documentEntity && DoctypeStands(st, toks, k, m)
    ensures Run(st, toks).handler == Handler.Prolog(2)
  {
    hide Next;
    hide Run;
    hide Before;
    hide IsDoctype;
    var before := toks[..k];
    BeforeIsRead(st, before);
    var s := Run(st, before);
    SameSubset(st, s, toks[k..m]);
    DoctypeIsPassed(s, toks[k..m]);
    RunJoins(st, before, toks[k..m]);
    var t := Run(st, before + toks[k..m]);
    MiscIsSkipped(t, toks[m..]);
    RunJoins(st, before + toks[k..m], toks[m..]);
    assert before + toks[k..m] + toks[m..] == toks;
  }

  /** The declaration does not depend on the handler in front of it. */
  lemma {:induction false} SameSubset(st: State, s: State, d: seq<Token>)
    requires s == At(st, s.handler) && IsDoctype(st, d)
    ensures IsDoctype(s, d)
  {
    hide Next;
    hide Run;
    hide Head;
    var body := d[..|d| - 1];
    if !Head(body) {
      var m: nat, q: nat :| SubsetClosedAt(st, body, m, q);
      assert At(s, InternalSubset) == At(st, InternalSubset);
      assert SubsetClosedAt(s, body, m, q);
    }
  }

  /** The outermost element is only reported by the handlers of the prolog. */
  lemma {:induction false} InstanceOnlyFromProlog(st: State)
    ensures Next(st, InstanceStart).1.RInstanceStart? <==> st.handler.Prolog?
  {
  }

  /** The start of the outermost element is accepted exactly behind a prolog. */
  lemma {:induction false} PrologExactly(st: State, toks: seq<Token>)
    requires st.handler == Handler.Prolog(0) && st.documentEntity
    ensures Next(Run(st, toks), InstanceStart).1.RInstanceStart? <==> IsProlog(st, toks)
  {
    InstanceOnlyFromProlog(Run(st, toks));
    hide Next;
    hide Run;
    hide Before;
    hide DoctypeStands;
    RunIsAccounted(st, toks);
    if Before(toks) {
      BeforeIsRead(st, toks);
    }
    if k: nat, m: nat :| DoctypeStands(st, toks, k, m) {
      DoctypeAmongMisc(st, toks, k, m);
    }
  }

  /** What blanks and byte order marks are reported as, where they are accepted. */
  lemma {:induction false} BlanksAreQuiet(st: State, tok: Token)
    requires (tok.S? || tok.BOM?) && st.documentEntity && !Next(st, tok).0.handler.Error?
    ensures st.handler.Prolog? || st.handler.InternalSubset? ==> Next(st, tok).1 == RNone
    ensures st.handler.Doctype? ==> Next(st, tok).1 == RDoctypeNone
  {
  }

  // ----- the external subset -----

  /** A part of an external subset: as in an internal one, or a conditional section. */
  datatype Part = Plain(item: Item) | Include(parts: seq<Part>) | Ignore

  predicate GoodPart(p: Part)
    decreases p, 0
  {
    match p
    case Plain(item) => item.Declared? ==> Good(item.d)
    case Include(parts) => GoodParts(parts)
    case Ignore => true
  }

  predicate GoodParts(ps: seq<Part>)
    decreases ps, 1
  {
    forall i | 0 <= i < |ps| :: GoodPart(ps[i])
  }

  /** How deep INCLUDE sections are nested. */
  function Depth(p: Part): nat
    decreases p, 0
  {
    if p.Include? then 1 + DepthOfAll(p.parts) else 0
  }

  function DepthOfAll(ps: seq<Part>): nat
    decreases ps, 1
  {
    if |ps| == 0 then 0
    else
      var before, last := DepthOfAll(ps[..|ps| - 1]), Depth(ps[|ps| - 1]);
      if before < last then last else before
  }

  /** What is reported for a section up to its '['; what stands in an ignored one is not read by the machine. */
  function SectionLines(keyword: string, role: Role): seq<Line> {
    [Line(CondSectOpen, RNone), Line(Name(keyword), RNone), Line(OpenBracket, role)]
  }

  function PartLines(p: Part): seq<Line>
    requires GoodPart(p)
    decreases p, 0
  {
    match p
    case Plain(item) => ItemLines(item)
    case Include(parts) => SectionLines("INCLUDE", RNone) + PartsLines(parts) + [Line(CondSectClose, RNone)]
    case Ignore => SectionLines("IGNORE", RIgnoreSect)
  }

  function PartsLines(ps: seq<Part>): seq<Line>
    requires GoodParts(ps)
    decreases ps, 1
  {
    if |ps| == 0 then [] else PartsLines(ps[..|ps| - 1]) + PartLines(ps[|ps| - 1])
  }

  predicate InExternal(st: State) {
    st.handler == ExternalSubset(1) && !st.documentEntity
  }

  lemma {:induction false} SectionMoves(st: State)
    requires InExternal(st)
    ensures Next(st, CondSectOpen) == (At(st, CondSect(0)), RNone)
    ensures Next(At(st, CondSect(0)), Name("INCLUDE")) == (At(st, CondSect(1)), RNone)
    ensures Next(At(st, CondSect(0)), Name("IGNORE")) == (At(st, CondSect(2)), RNone)
    ensures Next(At(st, CondSect(1)), OpenBracket) == (st.(includeLevel := Inc(st.includeLevel)), RNone)
    ensures Next(At(st, CondSect(2)), OpenBracket) == (st, RIgnoreSect)
  {
  }

  lemma {:induction false} SectionCloses(st: State)
    requires InExternal(st) && st.includeLevel > 0
    ensures Next(st, CondSectClose) == (st.(includeLevel := Dec(st.includeLevel)), RNone)
  {
  }

  lemma {:induction false} PlainIsRead(st: State, item: Item) returns (end: State)
    requires InExternal(st) && (item.Declared? ==> Good(item.d))
    ensures Reports(st, ItemLines(item), end) && Alike(end, st)
  {
    end := st;
    if item.Declared? {
      DeclarationIsRead(st, item.d);
      end := Behind(st, NoneLeft(st, item.d));
    } else {
      assert Next(st, PI) == (st, RPi) && Next(st, Comment) == (st, RComment);
      assert Next(st, ParamEntityRef) == (st, RParamEntityRef);
      hide Next;
      ReportsOne(st, ItemLines(item)[0]);
    }
  }

  lemma {:induction false} PartIsRead(st: State, p: Part) returns (end: State)
    requires InExternal(st) && GoodPart(p) && st.includeLevel + Depth(p) < WRAP
    ensures Reports(st, PartLines(p), end) && Alike(end, st)
    decreases p, 0
  {
    hide Next;
    hide Reports;
    hide ItemLines;
    match p
    case Plain(item) => end := PlainIsRead(st, item);
    case Include(parts) =>
      SectionMoves(st);
      var inside := st.(includeLevel := Inc(st.includeLevel));
      ReportsThree(st, Line(CondSectOpen, RNone), Line(Name("INCLUDE"), RNone), Line(OpenBracket, RNone));
      var mid := PartsAreRead(inside, parts);
      SectionCloses(mid);
      end := Next(mid, CondSectClose).0;
      ReportsOne(mid, Line(CondSectClose, RNone));
      ReportsThen(st, SectionLines("INCLUDE", RNone), inside, PartsLines(parts), mid);
      ReportsThen(st, SectionLines("INCLUDE", RNone) + PartsLines(parts), mid, [Line(CondSectClose, RNone)], end);
    case Ignore =>
      SectionMoves(st);
      end := st;
      ReportsThree(st, Line(CondSectOpen, RNone), Line(Name("IGNORE"), RNone), Line(OpenBracket, RIgnoreSect));
  }

  lemma {:induction false} PartsAreRead(st: State, ps: seq<Part>) returns (end: State)
    requires InExternal(st) && GoodParts(ps) && st.includeLevel + DepthOfAll(ps) < WRAP
    ensures Reports(st, PartsLines(ps), end) && Alike(end, st)
    decreases ps, 1
  {
    hide Next;
    end := st;
    if |ps| > 0 {
      var mid := PartsAreRead(st, ps[..|ps| - 1]);
      end := PartIsRead(mid, ps[|ps| - 1]);
      ReportsThen(st, PartsLines(ps[..|ps| - 1]), mid, PartLines(ps[|ps| - 1]), end);
    }
  }

  /** The first line of a part is no text declaration. */
  lemma {:induction false} FirstLine(ps: seq<Part>)
    requires GoodParts(ps) && |ps| > 0
    ensures |PartsLines(ps)| > 0 && !PartsLines(ps)[0].tok.XmlDecl?
    decreases |ps|
  {
    var before, p := ps[..|ps| - 1], ps[|ps| - 1];
    if |before| > 0 {
      FirstLine(before);
    } else if p.Plain? && p.item.Declared? {
      hide Lines;
      FirstToken(p.item.d);
    }
  }

  /** In front of the first token but a text declaration it makes no difference that none has been read. */
  lemma {:induction false} StartsAlike(st: State, lines: seq<Line>, end: State)
    requires st.handler == ExternalSubset(0) && |lines| > 0 && !lines[0].tok.XmlDecl?
    requires Reports(At(st, ExternalSubset(1)), lines, end)
    ensures Reports(st, lines, end)
  {
    assert Next(st, lines[0].tok) == Next(At(st, ExternalSubset(1)), lines[0].tok);
    hide Next;
  }

  /** From its start to its end an external subset is reported by the lines of its parts, sections included. */
  lemma {:induction false} ExternalSubsetIsRead(st: State, textDecl: bool, ps: seq<Part>) returns (end: State)
    requires st.handler == ExternalSubset(0) && !st.documentEntity && st.includeLevel == 0
    requires GoodParts(ps) && DepthOfAll(ps) < WRAP
    ensures var head := if textDecl then [Line(XmlDecl, RTextDecl)] else [];
            Reports(st, head + (PartsLines(ps) + [Line(NoToken, RNone)]), end)
    ensures end.handler == ExternalSubset(1) && end.includeLevel == 0
  {
    var begun, lines := At(st, ExternalSubset(1)), PartsLines(ps) + [Line(NoToken, RNone)];
    var mid := PartsAreRead(begun, ps);
    assert Next(st, XmlDecl) == (begun, RTextDecl) && Next(mid, NoToken) == (mid, RNone);
    hide Next;
    hide Reports;
    end := mid;
    ReportsOne(mid, Line(NoToken, RNone));
    ReportsThen(begun, PartsLines(ps), mid, [Line(NoToken, RNone)], end);
    if textDecl {
      ReportsOne(st, Line(XmlDecl, RTextDecl));
      ReportsThen(st, [Line(XmlDecl, RTextDecl)], begun, lines, end);
    } else {
      if |ps| > 0 {
        FirstLine(ps);
      }
      hide PartsLines;
      StartsAlike(st, lines, end);
      assert [] + lines == lines;
    }
  }

  /** What may stand behind "<![": one of two keywords, and '['; blanks between them change nothing. */
  lemma {:induction false} SectionHeadExactly(st: State, keyword: Token, bracket: Token)
    requires InExternal(st) && !Skipped(keyword) && !Skipped(bracket)
    ensures var s0 := Next(st, CondSectOpen).0;
            var s1 := Next(s0, keyword).0;
            && Next(s0, S) == (s0, RNone) && (!s1.handler.Error? ==> Next(s1, S) == (s1, RNone))
            && (!Next(s1, bracket).0.handler.Error? <==>
                  (keyword == Name("INCLUDE") || keyword == Name("IGNORE")) && bracket.OpenBracket?)
  {
  }

  /** The end of the subset, and of a section, are errors exactly when a section is open, or none is. */
  lemma {:induction false} SectionsBalance(st: State)
    requires InExternal(st)
    ensures Next(st, NoToken).1.RError? <==> st.includeLevel != 0
    ensures Next(st, CondSectClose).1.RError? <==> st.includeLevel == 0
  {
  }
}
