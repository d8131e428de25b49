/** The content scaffold: the linked tree that the parser grows while it reads a content model, kept in
    one array, and the flat copy that it hands to the application (xmlparse.c, nextScaffoldPart,
    build_node and build_model). */
module ScaffoldShapes {
  import opened ContentModels
  import opened ContentParsing

  /** An element of the scaffold (CONTENT_SCAFFOLD); children are linked by index. */
  datatype SNode = SNode(
    kind: Kind, quant: Quant, name: string,
    firstchild: nat, lastchild: nat, childcnt: nat, nextsib: nat)

  function Size(c: Content): (n: nat)
    ensures n >= 1
    decreases c, 1
  {
    1 + SizeList(c.children)
  }

  function SizeList(cs: seq<Content>): nat
    decreases cs, 0
  {
    if cs == [] then 0 else SizeList(cs[..|cs| - 1]) + Size(cs[|cs| - 1])
  }

  /** The nodes from i on are the tree c, in the order in which they were read. */
  ghost predicate Shape(sc: seq<SNode>, i: nat, c: Content)
    decreases c, 1
  {
    && i < |sc|
    && sc[i].kind == c.kind && sc[i].quant == c.quant
    && (c.kind.KName? ==> sc[i].name == c.name)
    && sc[i].childcnt == |c.children|
    && (c.children != [] ==> sc[i].firstchild == i + 1)
    && Linked(sc, i + 1, c.children, 0)
  }

  /** The trees cs follow one another from p on; each is linked to the next, and the last to e. */
  ghost predicate Linked(sc: seq<SNode>, p: nat, cs: seq<Content>, e: nat)
    decreases cs, 0
  {
    cs != [] ==>
      var init, last := cs[..|cs| - 1], cs[|cs| - 1];
      var at := p + SizeList(init);
      && Linked(sc, p, init, at)
      && Shape(sc, at, last)
      && sc[at].nextsib == e
  }

  /** Where the last of the trees cs starts, or 0 when there is none. */
  function LastStart(p: nat, cs: seq<Content>): nat {
    if cs == [] then 0 else p + SizeList(cs[..|cs| - 1])
  }

  /** The nodes from lo up to hi are the same in both. */
  ghost predicate SameBetween(sc: seq<SNode>, sc': seq<SNode>, lo: nat, hi: nat) {
    hi <= |sc| && hi <= |sc'| && forall j | lo <= j < hi :: sc'[j] == sc[j]
  }

  lemma {:induction false} ShapeFits(sc: seq<SNode>, i: nat, c: Content)
    requires Shape(sc, i, c)
    ensures i + Size(c) <= |sc|
    decreases c, 1
  {
    LinkedFits(sc, i + 1, c.children, 0);
  }

  lemma {:induction false} LinkedFits(sc: seq<SNode>, p: nat, cs: seq<Content>, e: nat)
    requires Linked(sc, p, cs, e) && p <= |sc|
    ensures p + SizeList(cs) <= |sc|
    decreases cs, 0
  {
    if cs != [] {
      var init, last := cs[..|cs| - 1], cs[|cs| - 1];
      ShapeFits(sc, p + SizeList(init), last);
    }
  }

  /** A tree is not disturbed by changes outside its nodes, nor by the link of its root. */
  lemma {:induction false} ShapeFrame(sc: seq<SNode>, sc': seq<SNode>, i: nat, c: Content)
    requires Shape(sc, i, c) && SameBetween(sc, sc', i + 1, i + Size(c))
    requires i < |sc'| && sc'[i] == sc[i].(nextsib := sc'[i].nextsib)
    ensures Shape(sc', i, c)
    decreases c, 1
  {
    LinkedFrame(sc, sc', i + 1, c.children, 0);
  }

  lemma {:induction false} LinkedFrame(sc: seq<SNode>, sc': seq<SNode>, p: nat, cs: seq<Content>, e: nat)
    requires Linked(sc, p, cs, e) && SameBetween(sc, sc', p, p + SizeList(cs))
    ensures Linked(sc', p, cs, e)
    decreases cs, 0
  {
    if cs != [] {
      var init, last := cs[..|cs| - 1], cs[|cs| - 1];
      var at := p + SizeList(init);
      LinkedFrame(sc, sc', p, init, at);
      ShapeFrame(sc, sc', at, last);
    }
  }

  /** Changing the link of the last tree. */
  lemma {:induction false} RelinkLast(sc: seq<SNode>, p: nat, cs: seq<Content>, e: nat, e': nat)
    requires Linked(sc, p, cs, e) && cs != []
    requires p + SizeList(cs) <= |sc|
    ensures var at := LastStart(p, cs);
            at < |sc| && Linked(sc[at := sc[at].(nextsib := e')], p, cs, e')
  {
    var init, last := cs[..|cs| - 1], cs[|cs| - 1];
    var at := p + SizeList(init);
    var sc' := sc[at := sc[at].(nextsib := e')];
    LinkedFrame(sc, sc', p, init, at);
    ShapeFrame(sc, sc', at, last);
  }

  lemma {:induction false} LinkedSnoc(sc: seq<SNode>, p: nat, cs: seq<Content>, c: Content, e: nat)
    requires Linked(sc, p, cs, p + SizeList(cs)) && Shape(sc, p + SizeList(cs), c)
    requires sc[p + SizeList(cs)].nextsib == e
    ensures Linked(sc, p, cs + [c], e)
    ensures SizeList(cs + [c]) == SizeList(cs) + Size(c)
    ensures LastStart(p, cs + [c]) == p + SizeList(cs)
  {
    assert (cs + [c])[..|cs|] == cs;
  }

  /** The number of nodes that the open groups take up, which is also where the next node goes. */
  function Pos(frames: seq<Frame>): nat {
    if frames == [] then 0
    else Pos(frames[..|frames| - 1]) + 1 + SizeList(frames[|frames| - 1].done)
  }

  /** Group k of the open groups: its closed members are linked, and so is the open one below it. */
  ghost predicate OpenShape(sc: seq<SNode>, frames: seq<Frame>, k: nat)
    requires k < |frames|
  {
    var f, at, inner := frames[k], Pos(frames[..k]), k + 1 < |frames|;
    var next := at + 1 + SizeList(f.done);
    && at < |sc|
    && sc[at].kind == f.kind
    && sc[at].childcnt == |f.done| + (if inner then 1 else 0)
    && (sc[at].childcnt > 0 ==> sc[at].firstchild == at + 1)
    && sc[at].lastchild == (if inner then next else LastStart(at + 1, f.done))
    && sc[at].nextsib == 0
    && Linked(sc, at + 1, f.done, if inner then next else 0)
  }

  /** The scaffold holds exactly the open groups. */
  ghost predicate Holds(sc: seq<SNode>, frames: seq<Frame>) {
    && |sc| == Pos(frames)
    && forall k | 0 <= k < |frames| :: OpenShape(sc, frames, k)
  }

  /** Groups further out are not disturbed by changes behind their closed members. */
  lemma {:induction false} OuterUndisturbed(sc: seq<SNode>, sc': seq<SNode>, frames: seq<Frame>, frames': seq<Frame>,
                                            k: nat)
    requires k + 1 < |frames| && k + 1 < |frames'| && frames'[..k + 1] == frames[..k + 1]
    requires OpenShape(sc, frames, k) && SameBetween(sc, sc', 0, Pos(frames[..k + 1]))
    ensures OpenShape(sc', frames', k)
  {
    hide Shape;
    assert frames[..k + 1][..k] == frames[..k] && frames'[..k] == frames'[..k + 1][..k];
    assert frames'[k] == frames'[..k + 1][k] == frames[k];
    var at := Pos(frames[..k]);
    LinkedFrame(sc, sc', at + 1, frames[k].done, at + 1 + SizeList(frames[k].done));
  }

  lemma {:induction false} PosGrows(frames: seq<Frame>, k: nat)
    requires k <= |frames|
    ensures Pos(frames[..k]) <= Pos(frames)
    decreases |frames|
  {
    if k < |frames| {
      PosGrows(frames[..|frames| - 1], k);
      assert frames[..|frames| - 1][..k] == frames[..k];
    } else {
      assert frames[..k] == frames;
    }
  }

  lemma {:induction false} OuterGroupsUndisturbed(sc: seq<SNode>, sc': seq<SNode>, frames: seq<Frame>,
                                                  frames': seq<Frame>, n: nat)
    requires Holds(sc, frames) && n < |frames| && n < |frames'| && frames'[..n] == frames[..n]
    requires SameBetween(sc, sc', 0, Pos(frames[..n]))
    ensures forall k | 0 <= k < n :: OpenShape(sc', frames', k)
  {
    forall k | 0 <= k < n ensures OpenShape(sc', frames', k) {
      assert frames'[..k + 1] == frames'[..n][..k + 1] && frames[..k + 1] == frames[..n][..k + 1];
      PosGrows(frames[..n], k + 1);
      OuterUndisturbed(sc, sc', frames, frames', k);
    }
  }

  /** The index of the innermost open group. */
  function InnermostAt(frames: seq<Frame>): nat
    requires frames != []
  {
    Pos(frames[..|frames| - 1])
  }

  /** What nextScaffoldPart does to the innermost open group q before it adds a node. */
  function Attach(sc: seq<SNode>, q: nat): seq<SNode>
    requires q < |sc| && sc[q].lastchild < |sc|
  {
    var next := |sc|;
    var last := sc[q].lastchild;
    var sc1 := if last != 0 then sc[last := sc[last].(nextsib := next)] else sc;
    sc1[q := sc1[q].(firstchild := if sc1[q].childcnt == 0 then next else sc1[q].firstchild,
                     lastchild := next, childcnt := sc1[q].childcnt + 1)]
  }

  lemma {:induction false} InnermostFacts(sc: seq<SNode>, frames: seq<Frame>)
    requires Holds(sc, frames) && frames != []
    ensures var q, f := InnermostAt(frames), Innermost(frames);
            && OpenShape(sc, frames, |frames| - 1)
            && q < |sc| == q + 1 + SizeList(f.done)
            && sc[q].lastchild < |sc| && (sc[q].lastchild != 0 ==> q < sc[q].lastchild)
            && (sc[q].lastchild != 0 <==> f.done != [])
  {
  }

  /** After a node has been attached, the closed members of the innermost group lead up to it. */
  lemma {:induction false} AttachLinks(sc: seq<SNode>, frames: seq<Frame>, node: SNode)
    requires Holds(sc, frames) && frames != []
    ensures var q, f, n := InnermostAt(frames), Innermost(frames), |sc|;
            q < n && sc[q].lastchild < n &&
            var t := Attach(sc, q) + [node];
            && |t| == n + 1 && SameBetween(sc, t, 0, q)
            && t[n] == node
            && t[q] == sc[q].(firstchild := q + 1, lastchild := n, childcnt := |f.done| + 1)
            && Linked(t, q + 1, f.done, n)
  {
    InnermostFacts(sc, frames);
    var q, f, n := InnermostAt(frames), Innermost(frames), |sc|;
    var t := Attach(sc, q) + [node];
    if f.done != [] {
      RelinkLast(sc, q + 1, f.done, 0, n);
      var at := LastStart(q + 1, f.done);
      var sc1 := sc[at := sc[at].(nextsib := n)];
      LinkedFrame(sc1, t, q + 1, f.done, n);
    }
  }

  /** Opening a group inside the innermost one. */
  lemma {:induction false} OpenAttached(sc: seq<SNode>, frames: seq<Frame>, node: SNode)
    requires Holds(sc, frames) && frames != []
    requires node == SNode(KSeq, node.quant, node.name, 0, 0, 0, 0)
    ensures var q := InnermostAt(frames);
            q < |sc| && sc[q].lastchild < |sc| && Holds(Attach(sc, q) + [node], frames + [NewFrame])
  {
    hide Shape;
    AttachLinks(sc, frames, node);
    InnermostFacts(sc, frames);
    var q, n := InnermostAt(frames), |frames|;
    var t, frames' := Attach(sc, q) + [node], frames + [NewFrame];
    assert frames'[..n - 1] == frames[..n - 1] && frames'[..n] == frames;
    OuterGroupsUndisturbed(sc, t, frames, frames', n - 1);
    assert OpenShape(t, frames', n - 1);
    assert OpenShape(t, frames', n);
    assert frames'[..|frames'| - 1] == frames;
  }

  lemma {:induction false} FirstGroup(node: SNode)
    requires node == SNode(KSeq, node.quant, node.name, 0, 0, 0, 0)
    ensures Holds([node], [NewFrame])
  {
    assert [NewFrame][..0] == [];
    assert Pos([NewFrame]) == 1;
    assert OpenShape([node], [NewFrame], 0);
  }

  /** Adding a name to the innermost group. */
  lemma {:induction false} NameAttached(sc: seq<SNode>, frames: seq<Frame>, node: SNode, c: Content)
    requires Holds(sc, frames) && frames != []
    requires c == Content(KName, c.quant, c.name, [])
    requires node == SNode(KName, c.quant, c.name, 0, 0, 0, 0)
    ensures var q := InnermostAt(frames);
            q < |sc| && sc[q].lastchild < |sc| && Holds(Attach(sc, q) + [node], AddMember(frames, c))
  {
    AttachLinks(sc, frames, node);
    InnermostFacts(sc, frames);
    var q, f, n := InnermostAt(frames), Innermost(frames), |frames|;
    var t := Attach(sc, q) + [node];
    assert Shape(t, |sc|, c);
    LinkedSnoc(t, q + 1, f.done, c, 0);
    TopReplaced(sc, t, frames, f.(done := f.done + [c]));
  }

  /** The node at holds the members of f, all of them closed. */
  ghost predicate ClosedShape(t: seq<SNode>, at: nat, f: Frame)
    requires at < |t|
  {
    && t[at].kind == f.kind && t[at].childcnt == |f.done| && t[at].nextsib == 0
    && (t[at].childcnt > 0 ==> t[at].firstchild == at + 1)
    && t[at].lastchild == LastStart(at + 1, f.done)
    && Linked(t, at + 1, f.done, 0)
  }

  /** Replacing the innermost group when the rest is untouched. */
  lemma {:induction false} TopReplaced(sc: seq<SNode>, t: seq<SNode>, frames: seq<Frame>, f: Frame)
    requires Holds(sc, frames) && frames != []
    requires SameBetween(sc, t, 0, InnermostAt(frames))
    requires |t| == InnermostAt(frames) + 1 + SizeList(f.done)
    requires InnermostAt(frames) < |t| && ClosedShape(t, InnermostAt(frames), f)
    ensures Holds(t, SetTop(frames, f))
  {
    hide Shape;
    var n := |frames|;
    var frames' := SetTop(frames, f);
    assert frames'[..n - 1] == frames[..n - 1];
    OuterGroupsUndisturbed(sc, t, frames, frames', n - 1);
    assert OpenShape(t, frames', n - 1);
  }

  /** Changing the kind or the separator of the innermost group. */
  lemma {:induction false} TopRetyped(sc: seq<SNode>, frames: seq<Frame>, f: Frame)
    requires Holds(sc, frames) && frames != [] && f.done == Innermost(frames).done
    ensures var q := InnermostAt(frames);
            q < |sc| && Holds(sc[q := sc[q].(kind := f.kind)], SetTop(frames, f))
  {
    InnermostFacts(sc, frames);
    var q := InnermostAt(frames);
    var t := sc[q := sc[q].(kind := f.kind)];
    LinkedFrame(sc, t, q + 1, f.done, 0);
    TopReplaced(sc, t, frames, f);
  }

  /** Closing the innermost group turns it into a tree. */
  lemma {:induction false} TopClosed(sc: seq<SNode>, frames: seq<Frame>, quant: Quant)
    requires Holds(sc, frames) && frames != [] && !Innermost(frames).kind.KName?
    ensures var q, c := InnermostAt(frames), Closed(Innermost(frames), quant);
            q < |sc| &&
            var t := sc[q := sc[q].(quant := quant)];
            && Shape(t, q, c) && |sc| == q + Size(c)
            && (|frames| > 1 ==> Holds(t, AddMember(frames[..|frames| - 1], c)))
  {
    InnermostFacts(sc, frames);
    var q, f := InnermostAt(frames), Innermost(frames);
    var c := Closed(f, quant);
    var t := sc[q := sc[q].(quant := quant)];
    LinkedFrame(sc, t, q + 1, f.done, 0);
    if |frames| > 1 {
      ClosedIsMember(sc, t, frames, c);
    }
  }

  lemma {:induction false} ClosedIsMember(sc: seq<SNode>, t: seq<SNode>, frames: seq<Frame>, c: Content)
    requires Holds(sc, frames) && |frames| > 1
    requires SameBetween(sc, t, 0, InnermostAt(frames)) && |t| == InnermostAt(frames) + Size(c)
    requires Shape(t, InnermostAt(frames), c) && t[InnermostAt(frames)].nextsib == 0
    ensures Holds(t, AddMember(frames[..|frames| - 1], c))
  {
    var n := |frames|;
    var g := frames[n - 2];
    var g' := g.(done := g.done + [c]);
    var frames' := frames[..n - 2] + [g'];
    assert AddMember(frames[..n - 1], c) == frames' by {
      assert frames[..n - 1][..n - 2] == frames[..n - 2];
    }
    ParentLinks(sc, t, frames, c);
    assert frames'[..n - 2] == frames[..n - 2];
    PosGrows(frames[..n - 1], n - 2);
    assert frames[..n - 1][..n - 2] == frames[..n - 2];
    OuterGroupsUndisturbed(sc, t, frames, frames', n - 2);
    ParentIsOpen(t, frames[..n - 2], g');
    assert Pos(frames') == |t|;
  }

  /** The group around the one that was closed now links it as a closed member. */
  lemma {:induction false} ParentLinks(sc: seq<SNode>, t: seq<SNode>, frames: seq<Frame>, c: Content)
    requires Holds(sc, frames) && |frames| > 1
    requires SameBetween(sc, t, 0, InnermostAt(frames)) && |t| == InnermostAt(frames) + Size(c)
    requires Shape(t, InnermostAt(frames), c) && t[InnermostAt(frames)].nextsib == 0
    ensures var at, g := Pos(frames[..|frames| - 2]), frames[|frames| - 2];
            && at < |t| == at + 1 + SizeList(g.done + [c])
            && ClosedShape(t, at, g.(done := g.done + [c]))
  {
    hide Shape;
    var n := |frames|;
    var g, at, q := frames[n - 2], Pos(frames[..n - 2]), InnermostAt(frames);
    assert OpenShape(sc, frames, n - 2);
    assert frames[..n - 1][..n - 2] == frames[..n - 2];
    assert q == at + 1 + SizeList(g.done);
    LinkedFrame(sc, t, at + 1, g.done, q);
    LinkedSnoc(t, at + 1, g.done, c, 0);
  }

  lemma {:induction false} ParentIsOpen(t: seq<SNode>, outer: seq<Frame>, f: Frame)
    requires Pos(outer) < |t| && |t| == Pos(outer) + 1 + SizeList(f.done)
    requires ClosedShape(t, Pos(outer), f)
    ensures OpenShape(t, outer + [f], |outer|) && Pos(outer + [f]) == |t|
  {
    InitOfAppend(outer, f);
  }

  lemma {:induction false} InitOfAppend<T>(s: seq<T>, x: T)
    ensures (s + [x])[..|s|] == s
  {
  }
}
