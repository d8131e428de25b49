/** The flat copy of a content model that goes to the application (xmlparse.c, build_node and
    build_model): one block of nodes, in which the children of a node stand next to one another, and
    behind it one block of names. */
module FlatModels {
  import opened ContentModels
  import opened ContentParsing
  import opened ScaffoldShapes

  /** A node of the copy (XML_Content); name is an offset into the characters, children an index. */
  datatype Cell = Cell(kind: Kind, quant: Quant, name: nat, numchildren: nat, children: nat)

  /** The characters that the names of a tree need, each name with its terminator. */
  function Chars(c: Content): nat
    decreases c, 1
  {
    if c.kind.KName? then |c.name| + 1 else CharsList(c.children)
  }

  function CharsList(cs: seq<Content>): nat
    decreases cs, 0
  {
    if cs == [] then 0 else CharsList(cs[..|cs| - 1]) + Chars(cs[|cs| - 1])
  }

  /** The nodes of the trees below their roots. */
  function Deeper(cs: seq<Content>): nat {
    if cs == [] then 0 else Deeper(cs[..|cs| - 1]) + (Size(cs[|cs| - 1]) - 1)
  }

  /** The name at offset o, up to its terminator. */
  ghost predicate NameAt(strs: seq<char>, o: nat, name: string) {
    o + |name| < |strs| && strs[o..o + |name|] == name && strs[o + |name|] == '\0'
  }

  /** What the application sees: cell i is the root of the tree c. */
  ghost predicate Represents(cells: seq<Cell>, strs: seq<char>, i: nat, c: Content)
    decreases c
  {
    && i < |cells|
    && cells[i].kind == c.kind && cells[i].quant == c.quant
    && cells[i].numchildren == |c.children|
    && (if c.kind.KName? then NameAt(strs, cells[i].name, c.name) else c.name == "")
    && forall k | 0 <= k < |c.children| :: Represents(cells, strs, cells[i].children + k, c.children[k])
  }

  /** Where everything is put: the children of cell i start at cp, deeper nodes follow, and the names
      start at sp. */
  ghost predicate Laid(cells: seq<Cell>, strs: seq<char>, i: nat, cp: nat, sp: nat, c: Content)
    decreases c, 1
  {
    && i < |cells|
    && cells[i].kind == c.kind && cells[i].quant == c.quant
    && (if c.kind.KName? then
          cells[i].numchildren == 0 && cells[i].name == sp && NameAt(strs, sp, c.name)
        else
          cells[i].numchildren == |c.children| && cells[i].children == cp
          && LaidList(cells, strs, cp, cp + |c.children|, sp, c.children))
  }

  /** The trees cs have their roots from i on, their deeper nodes from cp on, their names from sp on. */
  ghost predicate LaidList(cells: seq<Cell>, strs: seq<char>, i: nat, cp: nat, sp: nat, cs: seq<Content>)
    decreases cs, 0
  {
    cs != [] ==>
      var init, last := cs[..|cs| - 1], cs[|cs| - 1];
      && LaidList(cells, strs, i, cp, sp, init)
      && Laid(cells, strs, i + |init|, cp + Deeper(init), sp + CharsList(init), last)
  }

  lemma {:induction false} RootsAndDeeper(cs: seq<Content>)
    ensures SizeList(cs) == |cs| + Deeper(cs)
  {
    if cs != [] {
      RootsAndDeeper(cs[..|cs| - 1]);
    }
  }

  ghost predicate SameCells(cells: seq<Cell>, cells': seq<Cell>, lo: nat, hi: nat) {
    hi <= |cells| && hi <= |cells'| && forall j | lo <= j < hi :: cells'[j] == cells[j]
  }

  ghost predicate SameChars(strs: seq<char>, strs': seq<char>, lo: nat, hi: nat) {
    hi <= |strs| && hi <= |strs'| && forall j | lo <= j < hi :: strs'[j] == strs[j]
  }

  /** A finished tree is not disturbed by writing elsewhere. */
  lemma {:induction false} LaidFrame(cells: seq<Cell>, strs: seq<char>, cells': seq<Cell>, strs': seq<char>,
                                     i: nat, cp: nat, sp: nat, c: Content)
    requires Laid(cells, strs, i, cp, sp, c)
    requires i < |cells'| && cells'[i] == cells[i]
    requires SameCells(cells, cells', cp, cp + Size(c) - 1) && SameChars(strs, strs', sp, sp + Chars(c))
    ensures Laid(cells', strs', i, cp, sp, c)
    decreases c, 1
  {
    if !c.kind.KName? {
      RootsAndDeeper(c.children);
      LaidListFrame(cells, strs, cells', strs', cp, cp + |c.children|, sp, c.children);
    }
  }

  lemma {:induction false} LaidListFrame(cells: seq<Cell>, strs: seq<char>, cells': seq<Cell>, strs': seq<char>,
                                         i: nat, cp: nat, sp: nat, cs: seq<Content>)
    requires LaidList(cells, strs, i, cp, sp, cs)
    requires SameCells(cells, cells', i, i + |cs|) && SameCells(cells, cells', cp, cp + Deeper(cs))
    requires SameChars(strs, strs', sp, sp + CharsList(cs))
    ensures LaidList(cells', strs', i, cp, sp, cs)
    decreases cs, 0
  {
    if cs != [] {
      var init, last := cs[..|cs| - 1], cs[|cs| - 1];
      LaidListFrame(cells, strs, cells', strs', i, cp, sp, init);
      LaidFrame(cells, strs, cells', strs', i + |init|, cp + Deeper(init), sp + CharsList(init), last);
    }
  }

  lemma {:induction false} LaidListSnoc(cells: seq<Cell>, strs: seq<char>, i: nat, cp: nat, sp: nat,
                                        cs: seq<Content>, c: Content)
    requires LaidList(cells, strs, i, cp, sp, cs)
    requires Laid(cells, strs, i + |cs|, cp + Deeper(cs), sp + CharsList(cs), c)
    ensures LaidList(cells, strs, i, cp, sp, cs + [c])
    ensures Deeper(cs + [c]) == Deeper(cs) + (Size(c) - 1)
    ensures CharsList(cs + [c]) == CharsList(cs) + Chars(c)
  {
    assert (cs + [c])[..|cs|] == cs;
  }

  /** A tree in which names have no children and groups no name. */
  ghost predicate Proper(c: Content)
    decreases c
  {
    && (if c.kind.KName? then c.children == [] else c.name == "")
    && forall d | d in c.children :: Proper(d)
  }

  /** The k-th child of a laid out tree. */
  lemma {:induction false} ChildIsLaid(cells: seq<Cell>, strs: seq<char>, i: nat, cp: nat, sp: nat,
                                       cs: seq<Content>, k: nat)
    requires LaidList(cells, strs, i, cp, sp, cs) && k < |cs|
    ensures Laid(cells, strs, i + k, cp + Deeper(cs[..k]), sp + CharsList(cs[..k]), cs[k])
    decreases |cs|
  {
    var init := cs[..|cs| - 1];
    if k < |init| {
      ChildIsLaid(cells, strs, i, cp, sp, init, k);
      assert init[..k] == cs[..k];
    }
  }

  /** The application reads back exactly the tree. */
  lemma {:induction false} LaidRepresents(cells: seq<Cell>, strs: seq<char>, i: nat, cp: nat, sp: nat, c: Content)
    requires Laid(cells, strs, i, cp, sp, c) && Proper(c)
    ensures Represents(cells, strs, i, c)
    decreases c
  {
    var cs := c.children;
    forall k | 0 <= k < |cs| ensures Represents(cells, strs, cells[i].children + k, cs[k]) {
      ChildIsLaid(cells, strs, cp, cp + |cs|, sp, cs, k);
      LaidRepresents(cells, strs, cp + k, cp + |cs| + Deeper(cs[..k]), sp + CharsList(cs[..k]), cs[k]);
    }
  }

  /** No name of the tree contains the terminator. */
  ghost predicate Terminable(c: Content)
    decreases c
  {
    (c.kind.KName? ==> '\0' !in c.name) && forall d | d in c.children :: Terminable(d)
  }

  lemma {:induction false} NameEndsAtTerminator(strs: seq<char>, o: nat, name: string)
    requires NameAt(strs, o, name) && '\0' !in name
    ensures forall k | o <= k < o + |name| :: strs[k] == name[k - o] != '\0'
    ensures strs[o + |name|] == '\0'
  {
    forall k | o <= k < o + |name| ensures strs[k] == name[k - o] {
      assert strs[o..o + |name|][k - o] == name[k - o];
    }
  }

  lemma {:induction false} NameIsUnique(strs: seq<char>, o: nat, a: string, b: string)
    requires NameAt(strs, o, a) && NameAt(strs, o, b) && '\0' !in a && '\0' !in b
    ensures a == b
  {
    NameEndsAtTerminator(strs, o, a);
    NameEndsAtTerminator(strs, o, b);
    assert |a| == |b|;
    assert strs[o..o + |a|] == strs[o..o + |b|];
  }

  /** The flat copy shows one tree only. */
  lemma {:induction false} OneTreeIsShown(cells: seq<Cell>, strs: seq<char>, i: nat, c: Content, c': Content)
    requires Represents(cells, strs, i, c) && Represents(cells, strs, i, c')
    requires Terminable(c) && Terminable(c')
    ensures c == c'
    decreases c
  {
    if c.kind.KName? {
      NameIsUnique(strs, cells[i].name, c.name, c'.name);
    }
    forall k | 0 <= k < |c.children| ensures c.children[k] == c'.children[k] {
      OneTreeIsShown(cells, strs, cells[i].children + k, c.children[k], c'.children[k]);
    }
    assert c.children == c'.children;
  }

  /** The k-th of a list of linked trees, and the link that leads on. */
  lemma {:induction false} NextLinked(sc: seq<SNode>, p: nat, cs: seq<Content>, e: nat, k: nat)
    requires Linked(sc, p, cs, e) && k < |cs|
    ensures var at := p + SizeList(cs[..k]);
            && Shape(sc, at, cs[k])
            && sc[at].nextsib == (if k + 1 < |cs| then p + SizeList(cs[..k + 1]) else e)
    decreases |cs|
  {
    var init := cs[..|cs| - 1];
    if k < |init| {
      NextLinked(sc, p, init, p + SizeList(init), k);
      assert init[..k] == cs[..k];
      assert init[..k + 1] == cs[..k + 1];
    }
  }

  /** Copies the subtree of the scaffold at src to dest; its children go where contpos points, its
      names where strpos points, and both move on. */
  method BuildNode(scaffold: array<SNode>, src: nat, cells: array<Cell>, strs: array<char>, dest: nat,
                   contpos: nat, strpos: nat, ghost c: Content)
    returns (contpos': nat, strpos': nat)
    requires Shape(scaffold[..], src, c) && Proper(c)
    requires dest < contpos && contpos + (Size(c) - 1) <= cells.Length && strpos + Chars(c) <= strs.Length
    modifies cells, strs
    ensures contpos' == contpos + (Size(c) - 1) && strpos' == strpos + Chars(c)
    ensures Laid(cells[..], strs[..], dest, contpos, strpos, c)
    ensures forall j | 0 <= j < cells.Length && j != dest && !(contpos <= j < contpos') :: cells[j] == old(cells[j])
    ensures forall j | 0 <= j < strs.Length && !(strpos <= j < strpos') :: strs[j] == old(strs[j])
    decreases c, 1
  {
    var node := scaffold[src];
    if node.kind.KName? {
      cells[dest] := Cell(node.kind, node.quant, strpos, 0, 0);
      contpos' := contpos;
      strpos' := CopyName(node.name, strs, strpos);
    } else {
      contpos', strpos' := BuildChildren(scaffold, src, cells, strs, dest, contpos, strpos, c);
    }
  }

  /** Copies a name with its terminator. */
  method CopyName(name: string, strs: array<char>, strpos: nat) returns (strpos': nat)
    requires strpos + |name| + 1 <= strs.Length
    modifies strs
    ensures strpos' == strpos + |name| + 1
    ensures NameAt(strs[..], strpos, name)
    ensures forall j | 0 <= j < strs.Length && !(strpos <= j < strpos') :: strs[j] == old(strs[j])
  {
    strpos' := strpos;
    var k := 0;
    while k < |name|
      invariant 0 <= k <= |name| && strpos' == strpos + k
      invariant strs[strpos..strpos'] == name[..k]
      invariant forall j | 0 <= j < strs.Length && !(strpos <= j < strpos') :: strs[j] == old(strs[j])
    {
      strs[strpos'] := name[k];
      strpos' := strpos' + 1;
      k := k + 1;
    }
    strs[strpos'] := '\0';
    strpos' := strpos' + 1;
    assert strs[..][strpos..strpos + |name|] == strs[strpos..strpos + |name|] == name;
  }

  lemma {:induction false} PrefixSums(cs: seq<Content>, i: nat)
    requires i < |cs|
    ensures Deeper(cs[..i + 1]) == Deeper(cs[..i]) + (Size(cs[i]) - 1)
    ensures CharsList(cs[..i + 1]) == CharsList(cs[..i]) + Chars(cs[i])
    ensures Deeper(cs[..i + 1]) <= Deeper(cs) && CharsList(cs[..i + 1]) <= CharsList(cs)
    decreases |cs|
  {
    assert cs[..i + 1][..i] == cs[..i];
    if i + 1 < |cs| {
      PrefixSums(cs[..|cs| - 1], i);
      assert cs[..|cs| - 1][..i + 1] == cs[..i + 1];
    } else {
      assert cs[..i + 1] == cs;
    }
  }

  /** The first i children of a group have been copied. */
  ghost predicate Copied(cells: seq<Cell>, strs: seq<char>, contpos: nat, strpos: nat, cs: seq<Content>, i: nat,
                         contpos': nat, strpos': nat) {
    && i <= |cs|
    && contpos' == contpos + |cs| + Deeper(cs[..i]) && strpos' == strpos + CharsList(cs[..i])
    && LaidList(cells, strs, contpos, contpos + |cs|, strpos, cs[..i])
  }

  lemma {:induction false} OneMoreCopied(cells: seq<Cell>, strs: seq<char>, cells': seq<Cell>, strs': seq<char>,
                      contpos: nat, strpos: nat, cs: seq<Content>, i: nat, cp: nat, sp: nat)
    requires Copied(cells, strs, contpos, strpos, cs, i, cp, sp) && i < |cs|
    requires |cells'| == |cells| >= cp && |strs'| == |strs| >= sp
    requires Laid(cells', strs', contpos + i, cp, sp, cs[i])
    requires forall j | 0 <= j < cp && j != contpos + i :: cells'[j] == cells[j]
    requires forall j | 0 <= j < sp :: strs'[j] == strs[j]
    ensures Copied(cells', strs', contpos, strpos, cs, i + 1, cp + (Size(cs[i]) - 1), sp + Chars(cs[i]))
  {
    hide Deeper;
    hide CharsList;
    DoneUndisturbed(cells, strs, cells', strs', contpos, strpos, cs, i, cp, sp);
    assert cs[..i + 1] == cs[..i] + [cs[i]];
    LaidListSnoc(cells', strs', contpos, contpos + |cs|, strpos, cs[..i], cs[i]);
  }

  lemma {:induction false} DoneUndisturbed(cells: seq<Cell>, strs: seq<char>, cells': seq<Cell>, strs': seq<char>,
                        contpos: nat, strpos: nat, cs: seq<Content>, i: nat, cp: nat, sp: nat)
    requires Copied(cells, strs, contpos, strpos, cs, i, cp, sp) && i < |cs|
    requires |cells'| == |cells| >= cp && |strs'| == |strs| >= sp
    requires forall j | 0 <= j < cp && j != contpos + i :: cells'[j] == cells[j]
    requires forall j | 0 <= j < sp :: strs'[j] == strs[j]
    ensures LaidList(cells', strs', contpos, contpos + |cs|, strpos, cs[..i])
  {
    LaidListFrame(cells, strs, cells', strs', contpos, contpos + |cs|, strpos, cs[..i]);
  }

  method BuildChildren(scaffold: array<SNode>, src: nat, cells: array<Cell>, strs: array<char>, dest: nat,
                       contpos: nat, strpos: nat, ghost c: Content)
    returns (contpos': nat, strpos': nat)
    requires Shape(scaffold[..], src, c) && Proper(c) && !c.kind.KName?
    requires dest < contpos && contpos + (Size(c) - 1) <= cells.Length && strpos + Chars(c) <= strs.Length
    modifies cells, strs
    ensures contpos' == contpos + (Size(c) - 1) && strpos' == strpos + Chars(c)
    ensures Laid(cells[..], strs[..], dest, contpos, strpos, c)
    ensures forall j | 0 <= j < cells.Length && j != dest && !(contpos <= j < contpos') :: cells[j] == old(cells[j])
    ensures forall j | 0 <= j < strs.Length && !(strpos <= j < strpos') :: strs[j] == old(strs[j])
    decreases c, 0
  {
    var node := scaffold[src];
    ghost var cs := c.children;
    RootsAndDeeper(cs);
    cells[dest] := Cell(node.kind, node.quant, 0, node.childcnt, contpos);
    contpos', strpos' := contpos + node.childcnt, strpos;
    var i, cn := 0, node.firstchild;
    while i < node.childcnt
      invariant i <= node.childcnt
      invariant i < node.childcnt ==> cn == src + 1 + SizeList(cs[..i])
      invariant Copied(cells[..], strs[..], contpos, strpos, cs, i, contpos', strpos')
      invariant cells[dest] == Cell(c.kind, c.quant, 0, |cs|, contpos)
      invariant forall j | 0 <= j < cells.Length && j != dest && !(contpos <= j < contpos') :: cells[j] == old(cells[j])
      invariant forall j | 0 <= j < strs.Length && !(strpos <= j < strpos') :: strs[j] == old(strs[j])
    {
      NextLinked(scaffold[..], src + 1, cs, 0, i);
      contpos', strpos' := BuildChild(scaffold, cn, cells, strs, contpos, strpos, cs, i, contpos', strpos');
      cn := scaffold[cn].nextsib;
      i := i + 1;
    }
    assert cs[..|cs|] == cs;
  }

  method BuildChild(scaffold: array<SNode>, cn: nat, cells: array<Cell>, strs: array<char>,
                    contpos: nat, strpos: nat, ghost cs: seq<Content>, i: nat, cp: nat, sp: nat)
    returns (cp': nat, sp': nat)
    requires i < |cs| && Shape(scaffold[..], cn, cs[i]) && Proper(cs[i])
    requires Copied(cells[..], strs[..], contpos, strpos, cs, i, cp, sp)
    requires contpos + |cs| + Deeper(cs) <= cells.Length && strpos + CharsList(cs) <= strs.Length
    modifies cells, strs
    ensures Copied(cells[..], strs[..], contpos, strpos, cs, i + 1, cp', sp')
    ensures cp <= cp' && sp <= sp'
    ensures forall j | 0 <= j < cells.Length && !(contpos <= j < contpos + |cs|) && !(cp <= j < cp') ::
        cells[j] == old(cells[j])
    ensures forall j | 0 <= j < strs.Length && !(sp <= j < sp') :: strs[j] == old(strs[j])
    decreases cs[i], 2
  {
    PrefixSums(cs, i);
    ghost var before, beforeStrs := cells[..], strs[..];
    cp', sp' := BuildNode(scaffold, cn, cells, strs, contpos + i, cp, sp, cs[i]);
    OneMoreCopied(before, beforeStrs, cells[..], strs[..], contpos, strpos, cs, i, cp, sp);
  }
}
