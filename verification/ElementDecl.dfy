/** The part of doProlog that reads the content of an element declaration (xmlparse.c): it keeps the
    separators of the open groups and the scaffold in arrays that grow, and builds the flat copy when
    the outermost group closes. */
module ElementDeclarations {
  import opened Prolog
  import opened ContentModels
  import opened ContentParsing
  import opened ContentUniqueness
  import opened PrologRuns
  import opened ScaffoldShapes
  import opened FlatModels

  const INIT_SCAFFOLD_ELEMENTS: nat := 32
  const INIT_GROUP_SIZE: nat := 32

  /** The characters of the names read so far. */
  function OpenChars(frames: seq<Frame>): nat {
    if frames == [] then 0 else OpenChars(frames[..|frames| - 1]) + CharsList(frames[|frames| - 1].done)
  }

  ghost predicate ProperFrames(frames: seq<Frame>) {
    forall f | f in frames :: !f.kind.KName? && forall c | c in f.done :: Proper(c)
  }

  ghost predicate Indexed(index: seq<nat>, frames: seq<Frame>) {
    |frames| <= |index| && forall k | 0 <= k < |frames| :: index[k] == Pos(frames[..k])
  }

  /** The separator of group k stands at k + 1, because level counts from 1. */
  ghost predicate Connected(connectors: seq<char>, frames: seq<Frame>) {
    && (frames != [] ==> |frames| < |connectors|)
    && forall k | 0 <= k < |frames| :: connectors[k + 1] == frames[k].conn
  }

  /** The state of a declaration whose groups are open, on values. */
  ghost predicate Keeps(sc: seq<SNode>, index: seq<nat>, connectors: seq<char>, stringLen: nat, frames: seq<Frame>) {
    && Holds(sc, frames)
    && Indexed(index, frames)
    && Connected(connectors, frames)
    && ProperFrames(frames)
    && stringLen == OpenChars(frames)
  }

  /** The flat copy of a model, as the application gets it. */
  datatype Model = Model(cells: array<Cell>, strs: array<char>)

  ghost predicate Shows(m: Model, c: Content)
    reads m.cells, m.strs
  {
    && Represents(m.cells[..], m.strs[..], 0, c)
    && m.cells.Length == Size(c) && m.strs.Length == Chars(c)
  }

  datatype Reply = More | Fail | Finished(model: Model)

  /** What the handlers promise about their roles: a group is open when one is needed, and level counts
      the open groups. */
  predicate RoleFits(role: Role, level: nat, open: nat) {
    && (role.RGroupOpen? ==> level == open + 1)
    && (role.RGroupSequence? || role.RGroupChoice? ==> level == open)
    && (NeedsGroup(role) ==> open > 0)
    && (role.RContentEmpty? || role.RContentAny? ==> open == 0)
  }

  class ElementDecl {
    var groupConnector: array<char>   // of length groupSize, 0 before the first group
    var scaffold: array<SNode>        // of length scaffSize, 0 before the first node
    var scaffCount: nat
    var scaffIndex: array<nat>
    var scaffLevel: nat
    var contentStringLen: nat
    var inEldecl: bool
    ghost var frames: seq<Frame>

    ghost predicate Valid()
      reads this, groupConnector, scaffold, scaffIndex
    {
      && scaffCount <= scaffold.Length
      && scaffLevel == |frames|
      && (scaffIndex.Length == 0 || scaffIndex.Length == groupConnector.Length)
      && (if inEldecl then Keeps(scaffold[..scaffCount], scaffIndex[..], groupConnector[..], contentStringLen, frames)
          else frames == [] && contentStringLen == 0)
    }

    constructor ()
      ensures Valid() && frames == []
      ensures fresh(groupConnector) && fresh(scaffold) && fresh(scaffIndex)
    {
      groupConnector := new char[0];
      scaffold := new SNode[0];
      scaffIndex := new nat[0];
      scaffCount, scaffLevel, contentStringLen := 0, 0, 0;
      inEldecl := false;
      frames := [];
    }

    /** The name of the element has been read. */
    method Start()
      requires Valid() && !inEldecl
      modifies this`scaffLevel, this`scaffCount, this`inEldecl
      ensures Valid() && inEldecl && frames == []
    {
      scaffLevel, scaffCount, inEldecl := 0, 0, true;
    }

    /** Makes room for one more separator, and for its index when there are indices. */
    method GrowGroups(level: nat)
      requires Valid() && level == scaffLevel + 1
      modifies this`groupConnector, this`scaffIndex
      ensures Valid() && level < groupConnector.Length
      ensures groupConnector == old(groupConnector) || fresh(groupConnector)
      ensures scaffIndex == old(scaffIndex) || fresh(scaffIndex)
    {
      if level >= groupConnector.Length {
        if groupConnector.Length != 0 {
          var size := groupConnector.Length * 2;
          groupConnector := CopyConnectors(groupConnector, size);
          if scaffIndex.Length != 0 {
            scaffIndex := CopyIndex(scaffIndex, size);
          }
        } else {
          groupConnector := new char[INIT_GROUP_SIZE];
        }
      }
    }

    method NoSeparatorYet(level: nat)
      requires Valid() && inEldecl && scaffLevel < level < groupConnector.Length
      modifies groupConnector
      ensures Valid() && groupConnector[level] == '\0'
    {
      groupConnector[level] := '\0';
    }

    static method CopyConnectors(a: array<char>, size: nat) returns (b: array<char>)
      requires a.Length <= size
      ensures fresh(b) && b.Length == size && b[..a.Length] == a[..]
    {
      b := new char[size];
      forall k | 0 <= k < a.Length { b[k] := a[k]; }
    }

    static method CopyIndex(a: array<nat>, size: nat) returns (b: array<nat>)
      requires a.Length <= size
      ensures fresh(b) && b.Length == size && b[..a.Length] == a[..]
    {
      b := new nat[size];
      forall k | 0 <= k < a.Length { b[k] := a[k]; }
    }

    /** Adds an unlinked node behind the others and makes it the last child of the innermost group. */
    method NextScaffoldPart() returns (next: nat)
      requires Valid() && inEldecl && groupConnector.Length > 0
      modifies this`scaffold, this`scaffIndex, this`scaffCount, scaffold
      ensures next == old(scaffCount) && scaffCount == next + 1 <= scaffold.Length
      ensures scaffold == old(scaffold) || fresh(scaffold)
      ensures scaffIndex == old(scaffIndex) || fresh(scaffIndex)
      ensures scaffIndex.Length == groupConnector.Length && Indexed(scaffIndex[..], frames)
      ensures frames != [] ==>
                && InnermostAt(frames) < next
                && old(scaffold[..scaffCount])[InnermostAt(frames)].lastchild < next
      ensures scaffold[..next] == if frames == [] then [] else Attach(old(scaffold[..scaffCount]), InnermostAt(frames))
      ensures scaffold[next] == SNode(scaffold[next].kind, scaffold[next].quant, scaffold[next].name, 0, 0, 0, 0)
    {
      if scaffIndex.Length == 0 {
        scaffIndex := new nat[groupConnector.Length];
      }
      GrowScaffold();
      next := scaffCount;
      ghost var sc := scaffold[..next];
      scaffCount := scaffCount + 1;
      if scaffLevel != 0 {
        InnermostFacts(sc, frames);
        AttachTo(scaffIndex[scaffLevel - 1], next);
      }
      scaffold[next] := scaffold[next].(firstchild := 0, lastchild := 0, childcnt := 0, nextsib := 0);
    }

    method GrowScaffold()
      requires scaffCount <= scaffold.Length
      modifies this`scaffold
      ensures scaffCount < scaffold.Length && scaffold[..scaffCount] == old(scaffold[..scaffCount])
      ensures scaffold == old(scaffold) || fresh(scaffold)
    {
      if scaffCount >= scaffold.Length {
        var a := scaffold;
        var b := new SNode[if a.Length == 0 then INIT_SCAFFOLD_ELEMENTS else a.Length * 2];
        forall k | 0 <= k < a.Length { b[k] := a[k]; }
        scaffold := b;
      }
    }

    /** Links node next to its parent. */
    method AttachTo(parent: nat, next: nat)
      requires parent < next < scaffold.Length && scaffold[parent].lastchild < next
      requires scaffold[parent].lastchild == 0 || scaffold[parent].lastchild != parent
      modifies scaffold
      ensures scaffold[..next] == Attach(old(scaffold[..next]), parent)
    {
      var last := scaffold[parent].lastchild;
      if last != 0 {
        scaffold[last] := scaffold[last].(nextsib := next);
      }
      if scaffold[parent].childcnt == 0 {
        scaffold[parent] := scaffold[parent].(firstchild := next);
      }
      scaffold[parent] := scaffold[parent].(lastchild := next, childcnt := scaffold[parent].childcnt + 1);
    }

    /** RGroupOpen; level has already been raised. */
    method GroupOpen(level: nat)
      requires Valid() && inEldecl && level == scaffLevel + 1
      modifies this, groupConnector, scaffold, scaffIndex
      ensures Valid() && inEldecl
      ensures frames == old(frames) + [NewFrame]
      ensures groupConnector == old(groupConnector) || fresh(groupConnector)
      ensures scaffold == old(scaffold) || fresh(scaffold)
      ensures scaffIndex == old(scaffIndex) || fresh(scaffIndex)
    {
      GrowGroups(level);
      NoSeparatorYet(level);
      PushGroup();
    }

    /** Opens a group for which the separator has been cleared. */
    method PushGroup()
      requires Valid() && inEldecl
      requires scaffLevel + 1 < groupConnector.Length && groupConnector[scaffLevel + 1] == '\0'
      modifies this`scaffold, this`scaffIndex, this`scaffCount, this`scaffLevel, this`frames, this`contentStringLen
      modifies scaffold, scaffIndex
      ensures Valid() && frames == old(frames) + [NewFrame]
      ensures scaffold == old(scaffold) || fresh(scaffold)
      ensures scaffIndex == old(scaffIndex) || fresh(scaffIndex)
    {
      hide Attach;
      hide Pos;
      ghost var sc, index := scaffold[..scaffCount], scaffIndex[..];
      var myindex := GroupNode();
      RememberIndex(myindex);
      GroupIsOpen(sc, scaffIndex[..], groupConnector[..], contentStringLen, frames, scaffold[myindex]);
      Settle(frames + [NewFrame], contentStringLen);
    }

    /** Adds the node of a group. */
    method GroupNode() returns (myindex: nat)
      requires Valid() && inEldecl && groupConnector.Length > 0
      modifies this`scaffold, this`scaffIndex, this`scaffCount, scaffold
      ensures scaffold == old(scaffold) || fresh(scaffold)
      ensures scaffIndex == old(scaffIndex) || fresh(scaffIndex)
      ensures myindex == old(scaffCount) && scaffCount == myindex + 1 <= scaffold.Length
      ensures scaffIndex.Length == groupConnector.Length && Indexed(scaffIndex[..], frames)
      ensures scaffold[myindex] == SNode(KSeq, scaffold[myindex].quant, scaffold[myindex].name, 0, 0, 0, 0)
      ensures frames != [] ==> InnermostAt(frames) < myindex
                               && old(scaffold[..scaffCount])[InnermostAt(frames)].lastchild < myindex
      ensures scaffold[..scaffCount] ==
              (if frames == [] then [] else Attach(old(scaffold[..scaffCount]), InnermostAt(frames))) +
              [scaffold[myindex]]
    {
      myindex := NextScaffoldPart();
      ghost var before := scaffold[..myindex];
      scaffold[myindex] := scaffold[myindex].(kind := KSeq);
      assert scaffold[..scaffCount] == before + [scaffold[myindex]];
    }

    method RememberIndex(myindex: nat)
      requires scaffLevel < scaffIndex.Length
      modifies this`scaffLevel, scaffIndex
      ensures scaffLevel == old(scaffLevel) + 1
      ensures scaffIndex[..] == old(scaffIndex[..])[old(scaffLevel) := myindex]
    {
      scaffIndex[scaffLevel] := myindex;
      scaffLevel := scaffLevel + 1;
    }

    /** RGroupSequence: a comma between two members. */
    method GroupSequence(level: nat) returns (ok: bool)
      requires Valid() && inEldecl && level == scaffLevel > 0
      modifies this`frames, groupConnector
      ensures Valid()
      ensures ok <==> Innermost(old(frames)).conn != '|'
      ensures ok ==> frames == SetTop(old(frames), Innermost(old(frames)).(conn := ','))
    {
      if groupConnector[level] == '|' {
        return false;
      }
      ghost var f := Innermost(frames).(conn := ',');
      TopIsChanged(scaffold[..scaffCount], scaffIndex[..], groupConnector[..], contentStringLen, frames, f);
      ghost var q, sc := InnermostAt(frames), scaffold[..scaffCount];
      assert sc[q := sc[q].(kind := f.kind)] == sc;
      ghost var connectors := groupConnector[..];
      groupConnector[level] := ',';
      assert groupConnector[..] == connectors[level := ','];
      frames := SetTop(frames, f);
      ok := true;
    }

    /** RGroupChoice: a bar between two members. */
    method GroupChoice(level: nat) returns (ok: bool)
      requires Valid() && inEldecl && level == scaffLevel > 0
      modifies this`frames, groupConnector, scaffold
      ensures Valid()
      ensures ok <==> Innermost(old(frames)).conn != ','
      ensures ok ==> frames == SetTop(old(frames), WithSeparator(Innermost(old(frames)), KChoice))
    {
      if groupConnector[level] == ',' {
        return false;
      }
      ghost var f := WithSeparator(Innermost(frames), KChoice);
      ghost var sc := scaffold[..scaffCount];
      InnermostFacts(sc, frames);
      TopIsChanged(sc, scaffIndex[..], groupConnector[..], contentStringLen, frames, f);
      var q := scaffIndex[scaffLevel - 1];
      if groupConnector[level] == '\0' && !scaffold[q].kind.KMixed? {
        scaffold[q] := scaffold[q].(kind := KChoice);
      }
      assert scaffold[..scaffCount] == sc[q := sc[q].(kind := f.kind)];
      ghost var connectors := groupConnector[..];
      groupConnector[level] := '|';
      assert groupConnector[..] == connectors[level := '|'];
      frames := SetTop(frames, f);
      ok := true;
    }

    /** RContentPcdata. */
    method ContentPcdata()
      requires Valid() && inEldecl && scaffLevel > 0
      modifies this`frames, scaffold
      ensures Valid()
      ensures frames == SetTop(old(frames), Innermost(old(frames)).(kind := KMixed))
    {
      ghost var f := Innermost(frames).(kind := KMixed);
      ghost var sc, connectors := scaffold[..scaffCount], groupConnector[..];
      InnermostFacts(sc, frames);
      TopIsChanged(sc, scaffIndex[..], connectors, contentStringLen, frames, f);
      var q := scaffIndex[scaffLevel - 1];
      scaffold[q] := scaffold[q].(kind := KMixed);
      assert scaffold[..scaffCount] == sc[q := sc[q].(kind := f.kind)];
      assert connectors[|frames| := f.conn] == connectors;
      frames := SetTop(frames, f);
    }

    /** RContentElement and its relatives. */
    method ContentElement(name: string, quant: Quant)
      requires Valid() && inEldecl && scaffLevel > 0
      modifies this`scaffold, this`scaffIndex, this`scaffCount, this`contentStringLen, this`frames, scaffold
      ensures Valid()
      ensures scaffold == old(scaffold) || fresh(scaffold)
      ensures scaffIndex == old(scaffIndex) || fresh(scaffIndex)
      ensures frames == AddMember(old(frames), Content(KName, quant, name, []))
    {
      hide Keeps;
      hide Indexed;
      hide Attach;
      ghost var sc, index, c := scaffold[..scaffCount], scaffIndex[..], Content(KName, quant, name, []);
      NameNode(name, quant);
      NameIsAdded(sc, index, scaffIndex[..], groupConnector[..], contentStringLen, frames, c);
      Settle(AddMember(frames, c), contentStringLen + |name| + 1);
    }

    /** Accounts for what has been added. */
    method Settle(ghost fs: seq<Frame>, len: nat)
      requires inEldecl && scaffCount <= scaffold.Length && scaffLevel == |fs|
      requires scaffIndex.Length == groupConnector.Length
      requires Keeps(scaffold[..scaffCount], scaffIndex[..], groupConnector[..], len, fs)
      modifies this`frames, this`contentStringLen
      ensures Valid() && frames == fs
    {
      contentStringLen := len;
      frames := fs;
    }

    /** Adds the node of a name. */
    method NameNode(name: string, quant: Quant)
      requires Valid() && inEldecl && scaffLevel > 0
      modifies this`scaffold, this`scaffIndex, this`scaffCount, scaffold
      ensures scaffold == old(scaffold) || fresh(scaffold)
      ensures scaffIndex == old(scaffIndex) || fresh(scaffIndex)
      ensures scaffCount <= scaffold.Length && scaffIndex.Length == groupConnector.Length
      ensures Indexed(scaffIndex[..], frames)
      ensures InnermostAt(frames) < old(scaffCount)
              && old(scaffold[..scaffCount])[InnermostAt(frames)].lastchild < old(scaffCount)
      ensures scaffold[..scaffCount]
           == Attach(old(scaffold[..scaffCount]), InnermostAt(frames)) + [SNode(KName, quant, name, 0, 0, 0, 0)]
    {
      var myindex := NextScaffoldPart();
      ghost var before := scaffold[..myindex];
      scaffold[myindex] := scaffold[myindex].(kind := KName, quant := quant, name := name);
      assert scaffold[..scaffCount] == before + [scaffold[myindex]];
    }

    /** RGroupClose and its relatives; the outermost group ends the declaration. */
    method GroupClose(quant: Quant) returns (r: Reply)
      requires Valid() && inEldecl && scaffLevel > 0
      modifies this`scaffLevel, this`frames, this`inEldecl, this`contentStringLen, scaffold
      ensures Valid()
      ensures |old(frames)| > 1 ==> r == More && inEldecl && Open(frames) == CloseTop(old(frames), quant)
      ensures |old(frames)| == 1 ==>
                && r.Finished? && !inEldecl && fresh(r.model.cells) && fresh(r.model.strs)
                && Shows(r.model, Closed(Innermost(old(frames)), quant))
    {
      hide OpenShape;
      hide ProperFrames;
      ghost var sc, c := scaffold[..scaffCount], Closed(Innermost(frames), quant);
      GroupIsClosed(sc, scaffIndex[..], groupConnector[..], contentStringLen, frames, quant);
      scaffLevel := scaffLevel - 1;
      var q := scaffIndex[scaffLevel];
      scaffold[q] := scaffold[q].(quant := quant);
      assert scaffold[..scaffCount] == sc[q := sc[q].(quant := quant)];
      if scaffLevel == 0 {
        r := BuildModel(c);
        inEldecl := false;
        contentStringLen := 0;
        frames := [];
      } else {
        r := More;
        frames := AddMember(frames[..|frames| - 1], c);
      }
    }

    method BuildModel(ghost c: Content) returns (r: Reply)
      requires scaffCount <= scaffold.Length && Shape(scaffold[..scaffCount], 0, c) && Proper(c)
      requires scaffCount == Size(c) && contentStringLen == Chars(c)
      ensures r.Finished? && fresh(r.model.cells) && fresh(r.model.strs) && Shows(r.model, c)
    {
      ShapeFrame(scaffold[..scaffCount], scaffold[..], 0, c);
      var cells := new Cell[scaffCount];
      var strs := new char[contentStringLen];
      var cp, sp := BuildNode(scaffold, 0, cells, strs, 0, 1, 0, c);
      LaidRepresents(cells[..], strs[..], 0, 1, 0, c);
      r := Finished(Model(cells, strs));
    }

    /** RContentEmpty and RContentAny. */
    method ContentWord(kind: Kind) returns (r: Reply)
      requires Valid() && inEldecl && frames == [] && (kind.KEmpty? || kind.KAny?)
      modifies this`inEldecl
      ensures Valid() && !inEldecl
      ensures r.Finished? && fresh(r.model.cells) && fresh(r.model.strs)
      ensures Shows(r.model, Content(kind, QNone, "", []))
    {
      var cells := new Cell[1];
      var strs := new char[0];
      cells[0] := Cell(kind, QNone, 0, 0, 0);
      inEldecl := false;
      r := Finished(Model(cells, strs));
    }

    /** One token of the declaration, by its role. */
    method DoRole(role: Role, level: nat, name: string) returns (r: Reply)
      requires Valid() && inEldecl && RoleFits(role, level, scaffLevel)
      modifies this, groupConnector, scaffold, scaffIndex
      ensures Valid()
      ensures groupConnector == old(groupConnector) || fresh(groupConnector)
      ensures scaffold == old(scaffold) || fresh(scaffold)
      ensures scaffIndex == old(scaffIndex) || fresh(scaffIndex)
      ensures Agrees(r, Act(Open(old(frames)), role, name))
      ensures r.Finished? ==> fresh(r.model.cells) && fresh(r.model.strs)
    {
      hide Keeps;
      hide Shows;
      hide Agrees;
      if role.RGroupOpen? {
        r := OpenRole(role, level, name);
      } else if ClosingRole(role) {
        r := CloseRole(role, level, name);
      } else if role.RGroupSequence? || role.RGroupChoice? {
        r := SeparatorRole(role, level, name);
      } else if role.RContentPcdata? || IsElementRole(role) {
        r := MemberRole(role, level, name);
      } else {
        r := WordRole(role, level, name);
      }
    }

    method OpenRole(role: Role, level: nat, name: string) returns (r: Reply)
      requires role.RGroupOpen?
      requires Valid() && inEldecl && RoleFits(role, level, scaffLevel)
      modifies this, groupConnector, scaffold, scaffIndex
      ensures Valid()
      ensures groupConnector == old(groupConnector) || fresh(groupConnector)
      ensures scaffold == old(scaffold) || fresh(scaffold)
      ensures scaffIndex == old(scaffIndex) || fresh(scaffIndex)
      ensures Agrees(r, Act(Open(old(frames)), role, name))
      ensures r.Finished? ==> fresh(r.model.cells) && fresh(r.model.strs)
    {
      hide Keeps;
      hide Shows;
      GroupOpen(level);
      r := More;
    }

    method CloseRole(role: Role, level: nat, name: string) returns (r: Reply)
      requires ClosingRole(role)
      requires Valid() && inEldecl && RoleFits(role, level, scaffLevel)
      modifies this, groupConnector, scaffold, scaffIndex
      ensures Valid()
      ensures groupConnector == old(groupConnector) || fresh(groupConnector)
      ensures scaffold == old(scaffold) || fresh(scaffold)
      ensures scaffIndex == old(scaffIndex) || fresh(scaffIndex)
      ensures Agrees(r, Act(Open(old(frames)), role, name))
      ensures r.Finished? ==> fresh(r.model.cells) && fresh(r.model.strs)
    {
      hide Keeps;
      hide Shows;
      r := GroupClose(GroupQuant(role));
    }

    method SeparatorRole(role: Role, level: nat, name: string) returns (r: Reply)
      requires role.RGroupSequence? || role.RGroupChoice?
      requires Valid() && inEldecl && RoleFits(role, level, scaffLevel)
      modifies this, groupConnector, scaffold, scaffIndex
      ensures Valid()
      ensures groupConnector == old(groupConnector) || fresh(groupConnector)
      ensures scaffold == old(scaffold) || fresh(scaffold)
      ensures scaffIndex == old(scaffIndex) || fresh(scaffIndex)
      ensures Agrees(r, Act(Open(old(frames)), role, name))
      ensures r.Finished? ==> fresh(r.model.cells) && fresh(r.model.strs)
    {
      hide Keeps;
      hide Shows;
      var ok;
      if role.RGroupSequence? {
        ok := GroupSequence(level);
      } else {
        ok := GroupChoice(level);
      }
      r := if ok then More else Fail;
    }

    method MemberRole(role: Role, level: nat, name: string) returns (r: Reply)
      requires role.RContentPcdata? || IsElementRole(role)
      requires Valid() && inEldecl && RoleFits(role, level, scaffLevel)
      modifies this, groupConnector, scaffold, scaffIndex
      ensures Valid()
      ensures groupConnector == old(groupConnector) || fresh(groupConnector)
      ensures scaffold == old(scaffold) || fresh(scaffold)
      ensures scaffIndex == old(scaffIndex) || fresh(scaffIndex)
      ensures Agrees(r, Act(Open(old(frames)), role, name))
      ensures r.Finished? ==> fresh(r.model.cells) && fresh(r.model.strs)
    {
      hide OpenShape;
      hide Keeps;
      hide Shows;
      r := More;
      if role.RContentPcdata? {
        ContentPcdata();
      } else {
        ContentElement(name, ElementQuant(role));
      }
    }

    method WordRole(role: Role, level: nat, name: string) returns (r: Reply)
      requires !role.RGroupOpen? && !role.RGroupSequence? && !role.RGroupChoice? && !ClosingRole(role)
      requires !role.RContentPcdata? && !IsElementRole(role)
      requires Valid() && inEldecl && RoleFits(role, level, scaffLevel)
      modifies this, groupConnector, scaffold, scaffIndex
      ensures Valid()
      ensures groupConnector == old(groupConnector) || fresh(groupConnector)
      ensures scaffold == old(scaffold) || fresh(scaffold)
      ensures scaffIndex == old(scaffIndex) || fresh(scaffIndex)
      ensures Agrees(r, Act(Open(old(frames)), role, name))
      ensures r.Finished? ==> fresh(r.model.cells) && fresh(r.model.strs)
    {
      hide Keeps;
      hide Shows;
      r := More;
      if role.RContentEmpty? {
        r := ContentWord(KEmpty);
      } else if role.RContentAny? {
        r := ContentWord(KAny);
      } else if role.RError? {
        r := Fail;
      }
    }

    /** The reply and the open groups are what the machine on values says. */
    ghost predicate Agrees(r: Reply, b: Build)
      reads this, if r.Finished? then {r.model.cells} else {}, if r.Finished? then {r.model.strs} else {}
    {
      match b
      case Open(fs) => r.More? && inEldecl && frames == fs
      case Done(m) => r.Finished? && !inEldecl && Shows(r.model, m)
      case Failed => r.Fail?
    }
  }

  lemma {:induction false} GroupIsOpen(sc: seq<SNode>, index: seq<nat>, connectors: seq<char>, stringLen: nat,
                                       frames: seq<Frame>, node: SNode)
    requires Holds(sc, frames) && ProperFrames(frames) && stringLen == OpenChars(frames)
    requires |frames| + 1 < |connectors| && connectors[|frames| + 1] == '\0'
    requires forall k | 0 <= k < |frames| :: connectors[k + 1] == frames[k].conn
    requires |frames| < |index| && index[|frames|] == |sc| && forall k | 0 <= k < |frames| ::
        index[k] == Pos(frames[..k])
    requires node == SNode(KSeq, node.quant, node.name, 0, 0, 0, 0)
    requires frames != [] ==> InnermostAt(frames) < |sc| && sc[InnermostAt(frames)].lastchild < |sc|
    ensures Keeps((if frames == [] then [] else Attach(sc, InnermostAt(frames))) + [node],
                  index, connectors, stringLen, frames + [NewFrame])
  {
    var frames' := frames + [NewFrame];
    if frames == [] {
      FirstGroup(node);
      assert frames' == [NewFrame];
      assert [] + [node] == [node];
    } else {
      OpenAttached(sc, frames, node);
    }
    forall k | 0 <= k < |frames'| ensures index[k] == Pos(frames'[..k]) {
      assert frames'[..k] == frames[..k];
      assert frames[..|frames|] == frames;
    }
    assert frames'[..|frames|] == frames;
  }

  lemma {:induction false} SetTopKeepsRest(frames: seq<Frame>, f: Frame)
    requires frames != []
    ensures |SetTop(frames, f)| == |frames| && Innermost(SetTop(frames, f)) == f
    ensures SetTop(frames, f)[..|frames| - 1] == frames[..|frames| - 1]
    ensures forall k | 0 <= k < |frames| :: SetTop(frames, f)[..k] == frames[..k]
  {
    forall k | 0 <= k < |frames| ensures SetTop(frames, f)[..k] == frames[..k] {
    }
  }

  lemma {:induction false} TopIsChanged(sc: seq<SNode>, index: seq<nat>, connectors: seq<char>, stringLen: nat,
                                        frames: seq<Frame>, f: Frame)
    requires Keeps(sc, index, connectors, stringLen, frames) && frames != []
    requires f.done == Innermost(frames).done && !f.kind.KName?
    ensures var q := InnermostAt(frames);
            q < |sc| && index[|frames| - 1] == q && sc[q].kind == Innermost(frames).kind
            && connectors[|frames|] == Innermost(frames).conn
            && Keeps(sc[q := sc[q].(kind := f.kind)], index, connectors[|frames| := f.conn], stringLen,
                SetTop(frames, f))
  {
    TopRetyped(sc, frames, f);
    InnermostFacts(sc, frames);
    SetTopKeepsRest(frames, f);
    assert frames[|frames| - 1] in frames;
  }

  lemma {:induction false} NameIsAdded(sc: seq<SNode>, index: seq<nat>, index': seq<nat>, connectors: seq<char>,
                                       stringLen: nat, frames: seq<Frame>, c: Content)
    requires Keeps(sc, index, connectors, stringLen, frames) && Indexed(index', frames)
    requires frames != [] && c == Content(KName, c.quant, c.name, [])
    requires InnermostAt(frames) < |sc| && sc[InnermostAt(frames)].lastchild < |sc|
    ensures Keeps(Attach(sc, InnermostAt(frames)) + [SNode(KName, c.quant, c.name, 0, 0, 0, 0)],
                  index', connectors, stringLen + |c.name| + 1, AddMember(frames, c))
    ensures |AddMember(frames, c)| == |frames|
  {
    hide Holds;
    hide Pos;
    hide Attach;
    NameAttached(sc, frames, SNode(KName, c.quant, c.name, 0, 0, 0, 0), c);
    MemberCounts(frames, c);
  }

  /** Adding a member to the innermost group. */
  lemma {:induction false} MemberCounts(frames: seq<Frame>, c: Content)
    requires ProperFrames(frames) && frames != [] && Proper(c)
    ensures ProperFrames(AddMember(frames, c))
    ensures OpenChars(AddMember(frames, c)) == OpenChars(frames) + Chars(c)
    ensures |AddMember(frames, c)| == |frames|
    ensures forall k | 0 <= k < |frames| :: AddMember(frames, c)[..k] == frames[..k]
    ensures forall k | 0 <= k < |frames| :: AddMember(frames, c)[k].conn == frames[k].conn
  {
    var f := Innermost(frames);
    var f' := f.(done := f.done + [c]);
    SetTopKeepsRest(frames, f');
    assert f in frames;
    assert (f.done + [c])[..|f.done|] == f.done;
  }

  lemma {:induction false} GroupIsClosed(sc: seq<SNode>, index: seq<nat>, connectors: seq<char>, stringLen: nat,
                                         frames: seq<Frame>, quant: Quant)
    requires Keeps(sc, index, connectors, stringLen, frames) && frames != []
    ensures var q, c := InnermostAt(frames), Closed(Innermost(frames), quant);
            && q < |sc| && index[|frames| - 1] == q && Proper(c)
            && Shape(sc[q := sc[q].(quant := quant)], q, c)
            && (|frames| == 1 ==> q == 0 && |sc| == Size(c) && stringLen == Chars(c))
            && (|frames| > 1 ==>
                  Keeps(sc[q := sc[q].(quant := quant)], index, connectors, stringLen,
                        AddMember(frames[..|frames| - 1], c)))
  {
    var outer, f, c := frames[..|frames| - 1], Innermost(frames), Closed(Innermost(frames), quant);
    assert f in frames;
    TopClosed(sc, frames, quant);
    if |frames| == 1 {
      assert outer == [];
    } else {
      OuterKeeps(index, connectors, frames);
      MemberCounts(outer, c);
    }
  }

  lemma {:induction false} OuterKeeps(index: seq<nat>, connectors: seq<char>, frames: seq<Frame>)
    requires Indexed(index, frames) && Connected(connectors, frames) && ProperFrames(frames) && |frames| > 1
    ensures var outer := frames[..|frames| - 1];
            Indexed(index, outer) && Connected(connectors, outer) && ProperFrames(outer)
  {
    var outer := frames[..|frames| - 1];
    forall k | 0 <= k < |outer| ensures index[k] == Pos(outer[..k]) {
      assert outer[..k] == frames[..k];
    }
  }

  lemma {:induction false} RolesOfElementHandlers(i: nat, tok: Token, level: nat)
    requires ElementMove(i, tok, level).Go? || ElementMove(i, tok, level).Close?
    ensures var role := ElementMove(i, tok, level).role;
            && (NeedsGroup(role) ==> i >= 2)
            && (role.RGroupSequence? || role.RGroupChoice? ==> i == 7 && !ClosesGroup(tok) && !tok.OpenParen?)
            && (role.RContentEmpty? || role.RContentAny? ==> i == 1)
            && (role.RGroupOpen? ==> tok.OpenParen? && (i == 1 || i == 2 || i == 6))
  {
  }

  /** The roles that the element handlers report fit the groups that are open. */
  lemma {:induction false} ElementRoleFits(i: nat, tok: Token, level: nat, move: Move, open: nat)
    requires ElementShape(i, tok, level, move)
    requires (move.Go? || move.Close?) ==>
               && (NeedsGroup(move.role) ==> i >= 2)
               && (move.role.RGroupSequence? || move.role.RGroupChoice? ==>
                     i == 7 && !ClosesGroup(tok) && !tok.OpenParen?)
               && (move.role.RContentEmpty? || move.role.RContentAny? ==> i == 1)
               && (move.role.RGroupOpen? ==> tok.OpenParen? && (i == 1 || i == 2 || i == 6))
    requires open + 1 < WRAP
    requires i == 1 ==> open == 0
    requires i >= 2 ==> open > 0
    requires i == 2 ==> open == 1
    requires i >= 6 ==> level == open
    ensures move.Go? || move.Close? ==> RoleFits(move.role, NextLevel(i, tok, level), open)
  {
  }

  lemma {:induction false} OpenGroupsOfHandler(p: Parse, clean: seq<Token>)
    requires Explained(p, clean) && p.b.Open? && p.st.handler.Element?
    ensures var i, open := p.st.handler.i, |p.b.frames|;
            && (i == 1 ==> open == 0) && (i >= 2 ==> open > 0) && (i == 2 ==> open == 1)
            && (i >= 6 ==> p.st.level == open)
  {
  }

  /** The roles that the element handlers report fit the groups that are open. */
  lemma {:induction false} HandlersFit(p: Parse, clean: seq<Token>, tok: Token)
    requires Explained(p, clean) && p.b.Open? && !tok.ParamEntityRef?
    requires p.st.handler.Element? ==> |p.b.frames| + 1 < WRAP
    ensures RoleFits(Next(p.st, tok).1, Next(p.st, tok).0.level, |p.b.frames|)
  {
    if p.st.handler.Element? {
      ElementFits(p, clean, tok);
    }
  }

  lemma {:induction false} ElementFits(p: Parse, clean: seq<Token>, tok: Token)
    requires Explained(p, clean) && p.b.Open? && !tok.ParamEntityRef? && p.st.handler.Element?
    requires |p.b.frames| + 1 < WRAP
    ensures RoleFits(Next(p.st, tok).1, Next(p.st, tok).0.level, |p.b.frames|)
  {
    hide ElementMove;
    hide Explained;
    hide Next;
    hide RoleFits;
    hide ElementShape;
    NextOnElement(p.st, p.st.handler.i, tok);
    var i := p.st.handler.i;
    var move := ElementMove(i, tok, p.st.level);
    OpenGroupsOfHandler(p, clean);
    ElementMoveShape(i, tok, p.st.level);
    if move.Go? || move.Close? {
      RolesOfElementHandlers(i, tok, p.st.level);
    }
    ElementRoleFits(i, tok, p.st.level, move, |p.b.frames|);
    NoTop(i, tok, p.st.level);
    PlainRolesFit(|p.b.frames|);
  }

  lemma {:induction false} NextOnElement(st: State, i: nat, tok: Token)
    requires st.handler == Element(i)
    ensures Next(st, tok) == Follow(st.(level := NextLevel(i, tok, st.level)), tok, ElementMove(i, tok, st.level))
  {
  }

  lemma {:induction false} NoTop(i: nat, tok: Token, level: nat)
    ensures !ElementMove(i, tok, level).Top?
  {
  }

  lemma {:induction false} PlainRolesFit(open: nat)
    ensures forall l :: RoleFits(RError, l, open) && RoleFits(RInnerParamEntityRef, l, open)
  {
  }

  ghost predicate Failing(p: Parse) { p.st.handler.Error? || p.b.Failed? }

  lemma {:induction false} FailureIsFinal(p: Parse, toks: seq<Token>, i: nat)
    requires i <= |toks| && Failing(FeedAll(p, toks[..i]))
    ensures Failing(FeedAll(p, toks))
    decreases |toks|
  {
    hide Feed;
    if i == |toks| {
      assert toks[..i] == toks;
    } else {
      var before := toks[..|toks| - 1];
      assert before[..i] == toks[..i];
      FailureIsFinal(p, before, i);
      FailureStays(FeedAll(p, before), toks[|toks| - 1]);
    }
  }

  /** Before every token of a declaration the roles fit. */
  lemma {:induction false} RunFits(p: Parse, toks: seq<Token>, tok: Token)
    requires AtContent(p) && |toks| + 2 < WRAP
    requires InDeclared(tok) && forall t | t in toks :: InDeclared(t)
    requires FeedAll(p, toks).b.Open?
    ensures var q := FeedAll(p, toks);
            RoleFits(Next(q.st, tok).1, Next(q.st, tok).0.level, |q.b.frames|)
  {
    hide Feed;
    hide Next;
    hide RoleFits;
    var clean := NoBlanks(toks);
    var q := BlanksAreSkipped(p, toks);
    ReadsIsFeedAll(p, toks, q);
    ReadsIsFeedAll(p, clean, q);
    NoBlankIsLeft(toks);
    RunIsExplained(p, clean);
    OpenMeansElement(q, clean);
    HandlersFit(q, clean, tok);
  }

  lemma {:induction false} OpenMeansElement(p: Parse, clean: seq<Token>)
    requires Explained(p, clean) && p.b.Open?
    ensures p.st.handler.Error? || |p.b.frames| <= |clean|
  {
    if p.st.handler.Element? {
      NestingIsBounded(p, clean);
    }
  }

  /** Reads the content of a declaration token by token, as doProlog does, up to its closing bracket. */
  method ReadContent(machine: PrologState, d: ElementDecl, toks: seq<Token>) returns (r: Reply)
    requires machine.handler == Element(1) && d.Valid() && !d.inEldecl
    requires |toks| + 2 < WRAP && forall t | t in toks :: InDeclared(t)
    modifies machine, d, d.groupConnector, d.scaffold, d.scaffIndex
    ensures r.Finished? <==> exists m :: IsModel(m) && NoBlanks(toks) == PrintModel(m)
    ensures r.Finished? ==> exists m :: IsModel(m) && NoBlanks(toks) == PrintModel(m) && Shows(r.model, m)
  {
    hide Keeps;
    hide Shows;
    hide Feed;
    hide NoBlanks;
    hide PrintModel;
    hide IsModel;
    ghost var p0 := Parse(machine.View(), Open([]));
    d.Start();
    r := More;
    var i := 0;
    assert toks[..0] == [];
    while i < |toks| && !r.Fail?
      invariant i <= |toks|
      invariant d.Valid()
      invariant d.groupConnector == old(d.groupConnector) || fresh(d.groupConnector)
      invariant d.scaffold == old(d.scaffold) || fresh(d.scaffold)
      invariant d.scaffIndex == old(d.scaffIndex) || fresh(d.scaffIndex)
      invariant r.Finished? ==> fresh(r.model.cells) && fresh(r.model.strs)
      invariant Follows(machine, d, r, FeedAll(p0, toks[..i]))
    {
      assert forall t | t in toks[..i] :: t in toks;
      r := ReadToken(machine, d, p0, toks[..i], toks[i], r);
      assert toks[..i + 1] == toks[..i] + [toks[i]];
      i := i + 1;
    }
    ghost var p := FeedAll(p0, toks);
    if r.Fail? {
      FailureIsFinal(p0, toks, i);
    } else {
      assert toks[..i] == toks;
    }
    if !r.Finished? || !machine.handler.DeclClose? {
      r := Fail;
      assert forall m :: !Accepted(p, m);
    } else {
      assert Accepted(p, p.b.model);
    }
    Conclude(p0, toks);
  }

  /** The machine, the scaffold and the reply are in the state p. */
  ghost predicate Follows(machine: PrologState, d: ElementDecl, r: Reply, p: Parse)
    reads machine, d, if r.Finished? then {r.model.cells} else {}, if r.Finished? then {r.model.strs} else {}
  {
    && machine.View() == p.st
    && (if r.Fail? then Failing(p) else d.Agrees(r, p.b))
  }

  method ReadToken(machine: PrologState, d: ElementDecl, ghost p0: Parse, ghost before: seq<Token>, tok: Token,
                   r: Reply)
    returns (r': Reply)
    requires AtContent(p0) && |before| + 2 < WRAP && InDeclared(tok) && forall t | t in before :: InDeclared(t)
    requires d.Valid() && !r.Fail? && Follows(machine, d, r, FeedAll(p0, before))
    requires r.Finished? ==> r.model.cells as object != machine && r.model.strs as object != machine
    modifies machine, d, d.groupConnector, d.scaffold, d.scaffIndex
    ensures d.Valid()
    ensures d.groupConnector == old(d.groupConnector) || fresh(d.groupConnector)
    ensures d.scaffold == old(d.scaffold) || fresh(d.scaffold)
    ensures d.scaffIndex == old(d.scaffIndex) || fresh(d.scaffIndex)
    ensures r'.Finished? ==> r' == r || (fresh(r'.model.cells) && fresh(r'.model.strs))
    ensures Follows(machine, d, r', FeedAll(p0, before + [tok]))
  {
    hide Keeps;
    hide Shows;
    hide Next;
    hide Act;
    hide RoleFits;
    ghost var p := FeedAll(p0, before);
    assert (before + [tok])[..|before|] == before;
    assert FeedAll(p0, before + [tok]) == Feed(p, tok);
    if r.More? {
      RunFits(p0, before, tok);
    }
    var role := machine.TokenRole(tok);
    RunStays(p0, before);
    ErrorRoleFails(p.st, tok);
    if p.b.Done? {
      AfterTheModel(p.b, role, Text(tok));
    }
    if r.More? {
      r' := d.DoRole(role, machine.level, Text(tok));
    } else if role.RError? {
      r' := Fail;
    } else {
      r' := r;
    }
  }

  lemma {:induction false} AfterTheModel(b: Build, role: Role, name: string)
    requires b.Done?
    ensures Act(b, role, name) == b
  {
  }

  lemma {:induction false} ErrorRoleFails(st: State, tok: Token)
    requires InDeclaration(st)
    ensures Next(st, tok).1.RError? ==> Next(st, tok).0.handler.Error?
  {
    if st.handler.Element? {
      ElementRolesAreNotErrors(st.handler.i, tok, st.level);
    }
  }

  lemma {:induction false} ElementRolesAreNotErrors(i: nat, tok: Token, level: nat)
    ensures var move := ElementMove(i, tok, level); !move.Top? && (!move.Stuck? ==> !move.role.RError?)
  {
  }

  lemma {:induction false} RunStays(p: Parse, toks: seq<Token>)
    requires AtContent(p) && forall t | t in toks :: InDeclared(t)
    ensures InDeclaration(FeedAll(p, toks).st)
  {
    var q := BlanksAreSkipped(p, toks);
    ReadsIsFeedAll(p, toks, q);
  }

  lemma {:induction false} Conclude(p0: Parse, toks: seq<Token>)
    requires AtContent(p0) && |toks| + 1 < WRAP && forall t | t in toks :: InDeclared(t)
    ensures (exists m :: IsModel(m) && NoBlanks(toks) == PrintModel(m)) <==> exists m :: Accepted(FeedAll(p0, toks), m)
    ensures forall m :: Accepted(FeedAll(p0, toks), m) ==> IsModel(m) && NoBlanks(toks) == PrintModel(m)
  {
    hide FeedAll;
    hide NoBlanks;
    hide PrintModel;
    hide IsModel;
    if m :| IsModel(m) && NoBlanks(toks) == PrintModel(m) {
      AcceptsExactlyPrintedModels(p0, toks, m);
    }
    forall m | Accepted(FeedAll(p0, toks), m) ensures IsModel(m) && NoBlanks(toks) == PrintModel(m) {
      AcceptsExactlyPrintedModels(p0, toks, m);
    }
  }
}
