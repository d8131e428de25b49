/** Open elements across pieces of input (xmlparse.c, doContent and storeRawNames).

    The raw name of an open element lies in the parse buffer as long as the buffer is there, and is
    copied into the element's own buffer before the next piece of input may overwrite it.  Buffers
    are numbered here, and a pointer is a place in a buffer, so that a name whose buffer has been
    overwritten or moved would be seen to be lost. */
module TagStacks {
  import opened Bytes
  import W = TagWords

  const INIT_TAG_BUF_SIZE: nat := 32

  /** A place in a numbered buffer. */
  datatype Pointer = Pointer(buffer: nat, at: nat)

  datatype Maybe<T> = Nothing | Just(value: T)

  predicate InMemory(memory: seq<seq<Byte>>, p: Pointer, n: nat) {
    p.buffer < |memory| && p.at + n <= |memory[p.buffer]|
  }

  function At(memory: seq<seq<Byte>>, p: Pointer, n: nat): seq<Byte>
    requires InMemory(memory, p, n)
  {
    memory[p.buffer][p.at..p.at + n]
  }

  /** An open element, or one that can be used again. */
  class Tag {
    var parent: Tag?
    var rawName: Pointer
    var rawNameLength: nat
    /** The element's own buffer: its name with a zero, and later its raw name. */
    var buf: nat
    var strLen: nat
    /** The name reported, if it lies in the buffer; otherwise it is in the buffer of a binding. */
    var str: Maybe<Pointer>
    var localPart: Maybe<Pointer>
    /** The element's place in the list of open elements, or, below zero, of free ones. */
    ghost var place: int

    constructor (buf: nat)
      ensures this.buf == buf
    {
      this.buf := buf;
      parent, rawName, rawNameLength, strLen := null, Pointer(0, 0), 0, 0;
      str, localPart := Nothing, Nothing;
    }

    /** The raw name has been copied into the element's own buffer. */
    predicate Stored()
      reads this`rawName, this`buf, this`strLen
    {
      rawName == Pointer(buf, strLen + 1)
    }

    predicate Usable(memory: seq<seq<Byte>>, window: nat)
      reads this`buf
    {
      buf < |memory| && buf != window && |memory[buf]| > 0
    }

    /** The element has this name, here and in its buffer, and its pointers are good. */
    predicate Holds(memory: seq<seq<Byte>>, window: nat, name: W.RawName)
      reads this`rawName, this`rawNameLength, this`buf, this`strLen, this`str, this`localPart
    {
      && Usable(memory, window)
      && strLen < |memory[buf]| && memory[buf][..strLen] == name && memory[buf][strLen] == 0
      && rawNameLength == |name| && (Stored() || rawName.buffer == window)
      && InMemory(memory, rawName, rawNameLength) && At(memory, rawName, rawNameLength) == name
      && (str.Just? ==> str.value == Pointer(buf, 0))
      && (localPart.Just? ==> localPart.value.buffer == buf && localPart.value.at <= strLen)
    }
  }

  /** The element's pointers are what they were, wherever its buffer is now. */
  twostate predicate SamePlaces(t: Tag)
    reads t`str, t`localPart
  {
    && t.str.Just? == old(t.str.Just?) && t.localPart.Just? == old(t.localPart.Just?)
    && (t.localPart.Just? ==> t.localPart.value.at == old(t.localPart.value.at))
  }

  /** A list linked through `parent`, innermost element last. */
  ghost predicate Linked(head: Tag?, ts: seq<Tag>)
    reads ts`parent
  {
    && head == (if |ts| == 0 then null else ts[|ts| - 1])
    && (|ts| > 0 ==> ts[0].parent == null)
    && forall i | 0 < i < |ts| :: ts[i].parent == ts[i - 1]
  }

  lemma {:induction false} LinkedTail(head: Tag?, ts: seq<Tag>)
    requires Linked(head, ts) && head != null
    ensures |ts| > 0 && head == ts[|ts| - 1] && Linked(head.parent, ts[..|ts| - 1])
  {
  }

  lemma {:induction false} LinkedEmpty(head: Tag?, ts: seq<Tag>)
    requires Linked(head, ts)
    ensures head == null <==> |ts| == 0
  {
  }

  lemma {:induction false} LinkedMore(head: Tag?, ts: seq<Tag>, t: Tag)
    requires Linked(head, ts) && t !in ts && t.parent == head
    ensures Linked(t, ts + [t])
  {
  }

  /** Behind an element whose raw name has been copied, all others have theirs copied as well. */
  ghost predicate StoredFirst(ts: seq<Tag>)
    reads ts`rawName, ts`buf, ts`strLen
  {
    forall i, j | 0 <= i < j < |ts| && ts[j].Stored() :: ts[i].Stored()
  }

  lemma {:induction false} StoredMore(ts: seq<Tag>, t: Tag)
    requires StoredFirst(ts) && !t.Stored()
    ensures StoredFirst(ts + [t])
  {
  }

  lemma {:induction false} StoredBefore(ts: seq<Tag>)
    requires StoredFirst(ts) && |ts| > 0 && ts[|ts| - 1].Stored()
    ensures forall i | 0 <= i < |ts| :: ts[i].Stored()
  {
  }

  lemma {:induction false} AllAreStored(ts: seq<Tag>, k: nat)
    requires k <= |ts| && forall i | 0 <= i < k :: ts[..k][i].Stored()
    requires forall i | k <= i < |ts| :: ts[i].Stored()
    ensures StoredFirst(ts) && forall i | 0 <= i < |ts| :: ts[i].Stored()
  {
    forall i | 0 <= i < |ts| ensures ts[i].Stored() {
      if i < k {
        assert ts[..k][i] == ts[i];
      }
    }
  }

  lemma {:induction false} StoredLess(ts: seq<Tag>)
    requires StoredFirst(ts) && |ts| > 0
    ensures StoredFirst(ts[..|ts| - 1])
  {
  }

  lemma {:induction false} HoldsMeans(t: Tag, memory: seq<seq<Byte>>, window: nat, name: W.RawName)
    requires t.Holds(memory, window, name)
    ensures t.Usable(memory, window)
    ensures t.rawNameLength == |name| && InMemory(memory, t.rawName, t.rawNameLength)
    ensures At(memory, t.rawName, t.rawNameLength) == name
    ensures t.strLen <= |memory[t.buf]| && memory[t.buf][..t.strLen] == name
  {
  }

  /** Behind the prefix of a name, or its start if it has none. */
  function LocalStart(name: W.RawName): (k: nat)
    ensures k <= |name|
    ensures k == 0 <==> 0x3a !in name
    ensures k > 0 ==> name[k - 1] == 0x3a && 0x3a !in name[..k - 1]
  {
    if |name| == 0 then 0
    else if name[0] == 0x3a then 1
    else if LocalStart(name[1..]) == 0 then 0
    else LocalStart(name[1..]) + 1
  }

  /** An element whose buffers are filled. */
  lemma {:induction false} TagHolds(t: Tag, memory: seq<seq<Byte>>, window: nat, name: W.RawName)
    requires t.Usable(memory, window) && window < |memory| && t.strLen < |memory[t.buf]|
    requires memory[t.buf][..t.strLen] == name && memory[t.buf][t.strLen] == 0 && t.rawNameLength == |name|
    requires t.rawName.buffer == window || t.Stored()
    requires InMemory(memory, t.rawName, t.rawNameLength) && At(memory, t.rawName, t.rawNameLength) == name
    requires t.str.Just? ==> t.str.value == Pointer(t.buf, 0)
    requires t.localPart.Just? ==> t.localPart.value.buffer == t.buf && t.localPart.value.at <= t.strLen
    ensures t.Holds(memory, window, name)
  {
  }

  lemma {:induction false} HoldsMore(t: Tag, memory: seq<seq<Byte>>, window: nat, name: W.RawName)
    requires t.Holds(memory, window, name)
    ensures t.Usable(memory, window) && t.strLen < |memory[t.buf]|
    ensures memory[t.buf][..t.strLen] == name && memory[t.buf][t.strLen] == 0
    ensures t.rawNameLength == |name| && InMemory(memory, t.rawName, t.rawNameLength)
    ensures At(memory, t.rawName, t.rawNameLength) == name && (t.Stored() || t.rawName.buffer == window)
    ensures t.str.Just? ==> t.str.value == Pointer(t.buf, 0)
    ensures t.localPart.Just? ==> t.localPart.value.buffer == t.buf && t.localPart.value.at <= t.strLen
  {
  }

  /** utf8_toUtf8: copies what fits, and may stop behind the first byte of a character. */
  method Utf8ToUtf8(source: seq<Byte>, fromP: nat, fromEnd: nat, target: seq<Byte>, toP: nat, toLim: nat)
    returns (from: nat, copied: seq<Byte>)
    requires fromP <= fromEnd <= |source| && toP <= toLim <= |target|
    ensures fromP <= from <= fromEnd && from - fromP <= toLim - toP
    ensures fromEnd - fromP <= toLim - toP ==> from == fromEnd
    ensures |copied| == |target| && copied[..toP] == target[..toP]
    ensures copied[toP..toP + (from - fromP)] == source[fromP..from]
  {
    var fromLim := fromEnd;
    if fromLim - fromP > toLim - toP {
      fromLim := fromP + (toLim - toP);
      while fromLim > fromP && IsTrail(source[fromLim - 1])
        invariant fromP <= fromLim <= fromP + (toLim - toP)
      {
        fromLim := fromLim - 1;
      }
    }
    from, copied := fromP, target;
    while from != fromLim
      invariant fromP <= from <= fromLim && |copied| == |target|
      invariant copied[..toP] == target[..toP]
      invariant copied[toP..toP + (from - fromP)] == source[fromP..from]
      decreases fromLim - from
    {
      var to := toP + (from - fromP);
      assert copied[to := source[from]][toP..to] == copied[toP..to];
      copied := copied[to := source[from]];
      assert copied[toP..to + 1] == copied[toP..to] + [source[from]];
      assert source[fromP..from + 1] == source[fromP..from] + [source[from]];
      from := from + 1;
    }
  }

  ghost predicate Owned(owner: seq<Tag?>, t: Tag)
    reads t`buf
  {
    t.buf < |owner| && owner[t.buf] == t
  }

  /** The two lists, which share no element. */
  ghost predicate Lists(tagStack: Tag?, freeTagList: Tag?, open: seq<Tag>, free: seq<Tag>)
    reads open`parent, free`parent, open`place, free`place
  {
    && Linked(tagStack, open) && Linked(freeTagList, free)
    && (forall i | 0 <= i < |open| :: open[i].place == i)
    && (forall i | 0 <= i < |free| :: free[i].place == -1 - i)
  }

  /** The buffers: each element has one of its own, and the open ones have their names. */
  ghost predicate Contents(memory: seq<seq<Byte>>, window: nat, owner: seq<Tag?>, open: seq<Tag>, free: seq<Tag>,
                           names: seq<W.RawName>)
    reads open`rawName, open`rawNameLength, open`buf, open`strLen, open`str, open`localPart, free`buf
  {
    && window < |memory| == |owner| && |names| == |open|
    && (forall i | 0 <= i < |open| :: Owned(owner, open[i]) && open[i].Holds(memory, window, names[i]))
    && (forall i | 0 <= i < |free| :: Owned(owner, free[i]) && free[i].Usable(memory, window))
  }

  lemma {:induction false} ContentsMeans(memory: seq<seq<Byte>>, window: nat, owner: seq<Tag?>, open: seq<Tag>,
                                         free: seq<Tag>, names: seq<W.RawName>)
    requires Contents(memory, window, owner, open, free, names)
    ensures window < |memory| == |owner| && |names| == |open|
  {
  }

  /** Elements whose buffers are left as they are. */
  ghost predicate Elsewhere(ts: seq<Tag>, except: nat)
    reads ts`buf
  {
    forall i | 0 <= i < |ts| :: ts[i].buf != except
  }

  /** Writing one buffer, or adding one, leaves the elements with other buffers as they are. */
  lemma {:induction false} OthersHold(memory: seq<seq<Byte>>, window: nat, owner: seq<Tag?>, open: seq<Tag>,
                                      free: seq<Tag>, names: seq<W.RawName>, after: seq<seq<Byte>>, owners: seq<Tag?>,
                                      except: nat)
    requires Contents(memory, window, owner, open, free, names)
    requires |memory| <= |after| == |owners| && except != window && Elsewhere(open, except) && Elsewhere(free, except)
    requires forall b | 0 <= b < |memory| :: owners[b] == owner[b] && (b != except ==> after[b] == memory[b])
    ensures Contents(after, window, owners, open, free, names)
  {
  }

  /** The buffer of an element on no list, and one that is still to be added, are nobody else's. */
  lemma {:induction false} OwnElsewhere(memory: seq<seq<Byte>>, window: nat, owner: seq<Tag?>, open: seq<Tag>,
                                        free: seq<Tag>, names: seq<W.RawName>, except: nat)
    requires Contents(memory, window, owner, open, free, names)
    requires except < |owner| ==> owner[except] == null || (owner[except] !in open && owner[except] !in free)
    ensures Elsewhere(open, except) && Elsewhere(free, except)
  {
  }

  /** One open element, and those around it. */
  lemma {:induction false} SplitContents(memory: seq<seq<Byte>>, window: nat, owner: seq<Tag?>, open: seq<Tag>,
                                         free: seq<Tag>, names: seq<W.RawName>, k: nat)
    requires Contents(memory, window, owner, open, free, names) && k < |open|
    ensures window < |memory| == |owner| && |names| == |open|
    ensures Owned(owner, open[k]) && open[k].Holds(memory, window, names[k])
    ensures Contents(memory, window, owner, open[..k], free, names[..k])
    ensures Contents(memory, window, owner, open[k + 1..], [], names[k + 1..])
  {
  }

  lemma {:induction false} JoinContents(memory: seq<seq<Byte>>, window: nat, owner: seq<Tag?>, open: seq<Tag>,
                                        free: seq<Tag>, names: seq<W.RawName>, k: nat)
    requires k < |open| == |names|
    requires Contents(memory, window, owner, open[..k], free, names[..k])
    requires Contents(memory, window, owner, open[k + 1..], [], names[k + 1..])
    requires Owned(owner, open[k]) && open[k].Holds(memory, window, names[k])
    ensures Contents(memory, window, owner, open, free, names)
  {
    forall i | 0 <= i < |open| ensures Owned(owner, open[i]) && open[i].Holds(memory, window, names[i]) {
      if i > k {
        assert open[k + 1..][i - k - 1] == open[i] && names[k + 1..][i - k - 1] == names[i];
      } else if i < k {
        assert open[..k][i] == open[i] && names[..k][i] == names[i];
      }
    }
  }

  /** An element is not among those around it. */
  lemma {:induction false} NotAround(tagStack: Tag?, freeTagList: Tag?, open: seq<Tag>, free: seq<Tag>, k: nat)
    requires Lists(tagStack, freeTagList, open, free) && k < |open|
    ensures open[k] !in open[..k] && open[k] !in open[k + 1..] && open[k] !in free
  {
    forall i | 0 <= i < |open| && open[i] == open[k] ensures i == k {
      assert open[i].place == i && open[k].place == k;
    }
  }

  /** The elements around one whose buffer changes. */
  lemma {:induction false} AroundHolds(memory: seq<seq<Byte>>, window: nat, owner: seq<Tag?>, open: seq<Tag>,
                                       free: seq<Tag>, names: seq<W.RawName>, after: seq<seq<Byte>>, owners: seq<Tag?>,
                                       except: nat, k: nat)
    requires Contents(memory, window, owner, open, free, names) && k < |open|
    requires open[k] !in open[..k] && open[k] !in open[k + 1..] && open[k] !in free
    requires |memory| <= |after| == |owners| && except != window
    requires except < |owner| ==> owner[except] == open[k]
    requires forall b | 0 <= b < |memory| :: owners[b] == owner[b] && (b != except ==> after[b] == memory[b])
    ensures |names| == |open|
    ensures Contents(after, window, owners, open[..k], free, names[..k])
    ensures Contents(after, window, owners, open[k + 1..], [], names[k + 1..])
  {
    hide Contents;
    SplitContents(memory, window, owner, open, free, names, k);
    OwnElsewhere(memory, window, owner, open[..k], free, names[..k], except);
    OwnElsewhere(memory, window, owner, open[k + 1..], [], names[k + 1..], except);
    OthersHold(memory, window, owner, open[..k], free, names[..k], after, owners, except);
    OthersHold(memory, window, owner, open[k + 1..], [], names[k + 1..], after, owners, except);
  }

  /** Raw names that have been copied do not need the parse buffer. */
  lemma {:induction false} InputReplaced(memory: seq<seq<Byte>>, window: nat, owner: seq<Tag?>, open: seq<Tag>,
                                         free: seq<Tag>, names: seq<W.RawName>, after: seq<seq<Byte>>, newWindow: nat,
                                         owners: seq<Tag?>)
    requires Contents(memory, window, owner, open, free, names) && forall i | 0 <= i < |open| :: open[i].Stored()
    requires |memory| <= |after| == |owners| && (newWindow == window || |memory| <= newWindow < |after|)
    requires forall b | 0 <= b < |memory| :: owners[b] == owner[b] && (b != window ==> after[b] == memory[b])
    ensures Contents(after, newWindow, owners, open, free, names)
  {
  }

  lemma {:induction false} PushedContents(memory: seq<seq<Byte>>, window: nat, owner: seq<Tag?>, open: seq<Tag>,
                                          free: seq<Tag>, names: seq<W.RawName>, t: Tag, name: W.RawName)
    requires Contents(memory, window, owner, open, free, names)
    requires Owned(owner, t) && t.Holds(memory, window, name)
    ensures Contents(memory, window, owner, open + [t], free, names + [name])
  {
  }

  lemma {:induction false} PoppedContents(memory: seq<seq<Byte>>, window: nat, owner: seq<Tag?>, open: seq<Tag>,
                                          free: seq<Tag>, names: seq<W.RawName>)
    requires Contents(memory, window, owner, open, free, names) && |open| > 0
    ensures |names| == |open| && Owned(owner, open[|open| - 1])
    ensures open[|open| - 1].Holds(memory, window, names[|open| - 1])
    ensures Contents(memory, window, owner, open[..|open| - 1], free, names[..|open| - 1])
  {
  }

  lemma {:induction false} FreedContents(memory: seq<seq<Byte>>, window: nat, owner: seq<Tag?>, open: seq<Tag>,
                                         free: seq<Tag>, names: seq<W.RawName>, t: Tag)
    requires Contents(memory, window, owner, open, free, names)
    requires Owned(owner, t) && t.Usable(memory, window)
    ensures Contents(memory, window, owner, open, free + [t], names)
  {
  }

  lemma {:induction false} RecycledContents(memory: seq<seq<Byte>>, window: nat, owner: seq<Tag?>, open: seq<Tag>,
                                            free: seq<Tag>, names: seq<W.RawName>)
    requires Contents(memory, window, owner, open, free, names) && |free| > 0
    ensures Owned(owner, free[|free| - 1]) && free[|free| - 1].Usable(memory, window)
    ensures Contents(memory, window, owner, open, free[..|free| - 1], names)
  {
  }

  lemma {:induction false} PushedLists(tagStack: Tag?, freeTagList: Tag?, open: seq<Tag>, free: seq<Tag>, t: Tag)
    requires Lists(tagStack, freeTagList, open, free) && t !in open && t !in free
    requires t.parent == tagStack && t.place == |open|
    ensures Lists(t, freeTagList, open + [t], free)
  {
    hide Linked;
    LinkedMore(tagStack, open, t);
  }

  /** The innermost open element, without which the list goes on at its parent. */
  lemma {:induction false} PoppedLists(tagStack: Tag, freeTagList: Tag?, open: seq<Tag>, free: seq<Tag>)
    requires Lists(tagStack, freeTagList, open, free)
    ensures |open| > 0 && tagStack == open[|open| - 1] && tagStack !in open[..|open| - 1] && tagStack !in free
    ensures Lists(tagStack.parent, freeTagList, open[..|open| - 1], free)
  {
    hide Linked;
    LinkedTail(tagStack, open);
  }

  lemma {:induction false} TopIsOpen(tagStack: Tag?, freeTagList: Tag?, open: seq<Tag>, free: seq<Tag>)
    requires Lists(tagStack, freeTagList, open, free)
    ensures tagStack == null <==> |open| == 0
    ensures |open| > 0 ==> tagStack == open[|open| - 1]
  {
    hide Linked;
    LinkedEmpty(tagStack, open);
    if tagStack != null {
      LinkedTail(tagStack, open);
    }
  }

  lemma {:induction false} ParentIs(tagStack: Tag?, freeTagList: Tag?, open: seq<Tag>, free: seq<Tag>, k: nat)
    requires Lists(tagStack, freeTagList, open, free) && k < |open|
    ensures open[k].parent == if k == 0 then null else open[k - 1]
  {
  }

  lemma {:induction false} FreedLists(tagStack: Tag?, freeTagList: Tag?, open: seq<Tag>, free: seq<Tag>, t: Tag)
    requires Lists(tagStack, freeTagList, open, free) && t !in open && t !in free
    requires t.parent == freeTagList && t.place == -1 - |free|
    ensures Lists(tagStack, t, open, free + [t])
  {
    hide Linked;
    LinkedMore(freeTagList, free, t);
  }

  lemma {:induction false} RecycledLists(tagStack: Tag?, freeTagList: Tag, open: seq<Tag>, free: seq<Tag>)
    requires Lists(tagStack, freeTagList, open, free)
    ensures |free| > 0 && freeTagList == free[|free| - 1] && freeTagList !in free[..|free| - 1] && freeTagList !in open
    ensures Lists(tagStack, freeTagList.parent, open, free[..|free| - 1])
  {
    hide Linked;
    LinkedTail(freeTagList, free);
  }

  class TagParser {
    /** Whether storeAtts finds a namespace for an element of this name. */
    const inNamespace: W.RawName -> bool
    var memory: seq<seq<Byte>>
    /** The parse buffer. */
    var window: nat
    var tagStack: Tag?
    var freeTagList: Tag?
    var tagLevel: nat
    var stage: W.Stage
    var events: seq<W.Event>

    /** The open elements, the outermost first, their names, and the elements that are free. */
    ghost var open: seq<Tag>
    ghost var names: seq<W.RawName>
    ghost var free: seq<Tag>
    /** Whose each buffer is. */
    ghost var owner: seq<Tag?>

    ghost predicate Valid()
      reads this, open, free
    {
      && Listed() && Filled() && StoredFirst(open) && window < |memory| && |names| == |open|
      && (stage.Inside? ==> tagLevel == |open|)
    }

    ghost predicate Listed()
      reads this`tagStack, this`freeTagList, this`open, this`free
      reads open`parent, free`parent, open`place, free`place
    {
      Lists(tagStack, freeTagList, open, free)
    }

    ghost predicate Filled()
      reads this`memory, this`window, this`owner, this`open, this`free, this`names
      reads open`rawName, open`rawNameLength, open`buf, open`strLen, open`str, open`localPart, free`buf
    {
      Contents(memory, window, owner, open, free, names)
    }

    ghost function Tags(): set<Tag>
      reads this`open, this`free
    {
      set t | t in open + free
    }

    /** An element on neither list, with a buffer of its own. */
    ghost predicate Detached(t: Tag)
      reads this`memory, this`window, this`owner, this`open, this`free, t`buf
    {
      t.Usable(memory, window) && Owned(owner, t) && t !in open && t !in free
    }

    ghost function View(): W.Progress
      reads this`stage, this`names, this`events
    {
      W.Progress(stage, names, events)
    }

    ghost predicate AllStored()
      reads this`open, open
    {
      forall i | 0 <= i < |open| :: open[i].Stored()
    }

    constructor (inNamespace: W.RawName -> bool)
      ensures Valid() && View() == W.BEGIN && fresh(Tags()) && AllStored()
    {
      this.inNamespace := inNamespace;
      memory, window, tagStack, freeTagList, tagLevel, stage, events := [[]], 0, null, null, 0, W.Inside, [];
      open, names, free, owner := [], [], [], [null];
    }

    /** Writes the buffer of an element on no list. */
    method WriteBuffer(t: Tag, buffer: seq<Byte>)
      requires Valid() && Detached(t) && |buffer| == |memory[t.buf]|
      modifies this`memory
      ensures Valid() && Detached(t) && memory == old(memory)[t.buf := buffer]
    {
      hide Lists;
      hide Contents;
      hide StoredFirst;
      ContentsMeans(memory, window, owner, open, free, names);
      OwnElsewhere(memory, window, owner, open, free, names, t.buf);
      OthersHold(memory, window, owner, open, free, names, memory[t.buf := buffer], owner, t.buf);
      memory := memory[t.buf := buffer];
    }

    /** realloc: the element gets a longer buffer in another place. */
    method MoveBuffer(t: Tag, buffer: seq<Byte>)
      requires Valid() && Detached(t) && |buffer| > 0
      modifies this`memory, this`owner, t`buf
      ensures Valid() && Detached(t)
      ensures memory == old(memory) + [buffer] && t.buf == |old(memory)|
    {
      hide Lists;
      hide Contents;
      hide StoredFirst;
      ContentsMeans(memory, window, owner, open, free, names);
      OwnElsewhere(memory, window, owner, open, free, names, |memory|);
      OthersHold(memory, window, owner, open, free, names, memory + [buffer], owner + [t], |memory|);
      t.buf := |memory|;
      memory, owner := memory + [buffer], owner + [t];
    }

    method NewTag() returns (t: Tag)
      requires Valid()
      modifies this`memory, this`owner
      ensures Valid() && Detached(t) && fresh(t) && memory[window] == old(memory[window])
    {
      hide Lists;
      hide Contents;
      hide StoredFirst;
      ContentsMeans(memory, window, owner, open, free, names);
      t := new Tag(|memory|);
      var after := memory + [seq(INIT_TAG_BUF_SIZE, _ => 0)];
      OwnElsewhere(memory, window, owner, open, free, names, |memory|);
      OthersHold(memory, window, owner, open, free, names, after, owner + [t], |memory|);
      memory, owner := after, owner + [t];
    }

    method RecycleTag() returns (t: Tag)
      requires Valid() && freeTagList != null
      modifies this`freeTagList, this`free
      ensures Valid() && Detached(t) && t in old(free) && Tags() <= old(Tags())
    {
      hide Lists;
      hide Contents;
      hide StoredFirst;
      RecycledLists(tagStack, freeTagList, open, free);
      RecycledContents(memory, window, owner, open, free, names);
      t := freeTagList;
      freeTagList := t.parent;
      free := free[..|free| - 1];
    }

    /** The first free element, or a new one. */
    method TakeTag() returns (t: Tag)
      requires Valid()
      modifies this`freeTagList, this`free, this`memory, this`owner
      ensures Valid() && Detached(t) && (t in old(free) || fresh(t))
      ensures Tags() <= old(Tags()) && memory[window] == old(memory[window])
    {
      hide Lists;
      hide StoredFirst;
      hide Tag.Holds;
      if freeTagList != null {
        t := RecycleTag();
      } else {
        t := NewTag();
      }
    }

    /** One round of the conversion: what fits, and when that is not all, a longer buffer. */
    method FillMore(t: Tag, fromP: nat, end: nat, start: nat) returns (from: nat)
      requires Valid() && Detached(t) && start <= fromP <= end <= |memory[window]| && fromP - start < |memory[t.buf]|
      requires memory[t.buf][..fromP - start] == memory[window][start..fromP]
      modifies this`memory, this`owner, t`buf
      ensures Valid() && Detached(t) && memory[window] == old(memory[window])
      ensures fromP <= from <= end && from - start < |memory[t.buf]|
      ensures memory[t.buf][..from - start] == memory[window][start..from]
      ensures from < end ==> old(|memory[t.buf]|) <= end - start && |memory[t.buf]| > old(|memory[t.buf]|)
    {
      hide Lists;
      hide Contents;
      hide StoredFirst;
      hide Tag.Holds;
      var buffer, text, to := memory[t.buf], memory[window], fromP - start;
      var copied;
      from, copied := Utf8ToUtf8(text, fromP, end, buffer, to, |buffer| - 1);
      assert copied[..from - start] == text[start..from] by {
        assert copied[..from - start] == copied[..to] + copied[to..from - start];
        assert text[start..from] == text[start..fromP] + text[fromP..from];
      }
      WriteBuffer(t, copied);
      if from != end {
        MoveBuffer(t, copied + seq(|copied|, _ => 0));
        assert memory[t.buf][..from - start] == copied[..from - start];
      }
    }

    /** Copies the name into the element's buffer, which grows until the name fits with its zero. */
    method FillName(t: Tag, start: nat, n: nat)
      requires Valid() && Detached(t) && start + n <= |memory[window]|
      modifies this`memory, this`owner, t`buf, t`strLen
      ensures Valid() && Detached(t) && memory[window] == old(memory[window])
      ensures t.strLen == n < |memory[t.buf]|
      ensures memory[t.buf][..n] == memory[window][start..start + n] && memory[t.buf][n] == 0
    {
      hide Lists;
      hide Contents;
      hide StoredFirst;
      hide Tag.Holds;
      ghost var source := memory[window];
      assert source[start..start] == [];
      var from := FillMore(t, start, start + n, start);
      while from != start + n
        invariant Valid() && Detached(t) && memory[window] == source
        invariant start <= from <= start + n && from - start < |memory[t.buf]|
        invariant memory[t.buf][..from - start] == source[start..from]
        decreases from != start + n, n - |memory[t.buf]|
      {
        from := FillMore(t, from, start + n, start);
      }
      t.strLen := n;
      var ended := memory[t.buf][n := 0];
      assert ended[..n] == memory[t.buf][..n];
      WriteBuffer(t, ended);
    }

    /** Pushes an element whose raw name lies in the parse buffer. */
    method PushTag(t: Tag, ghost name: W.RawName)
      requires Valid() && Detached(t) && stage.Inside?
      requires t.Holds(memory, window, name) && !t.Stored()
      modifies this`tagStack, this`tagLevel, this`open, this`names, t`parent, t`place
      ensures Valid() && open == old(open) + [t] && names == old(names) + [name]
    {
      hide Lists;
      hide Contents;
      hide StoredFirst;
      hide Tag.Holds;
      hide Tag.Stored;
      t.place, t.parent := |open|, tagStack;
      PushedLists(tagStack, freeTagList, open, free, t);
      PushedContents(memory, window, owner, open, free, names, t, name);
      StoredMore(open, t);
      tagStack, tagLevel := t, tagLevel + 1;
      open, names := open + [t], names + [name];
    }

    /** Takes the innermost element off the stack; its level is counted down by the caller. */
    method PopTag() returns (t: Tag)
      requires Valid() && tagStack != null
      modifies this`tagStack, this`freeTagList, this`open, this`names, this`free, open
      ensures window < |memory| && |old(open)| > 0 && Listed() && Filled() && StoredFirst(open)
      ensures open == old(open)[..|old(open)| - 1] && names == old(names)[..|old(names)| - 1]
      ensures Tags() == old(Tags())
      ensures InMemory(memory, t.rawName, t.rawNameLength)
      ensures At(memory, t.rawName, t.rawNameLength) == old(names)[|old(names)| - 1]
      ensures t.buf < |memory| && t.strLen <= |memory[t.buf]|
      ensures memory[t.buf][..t.strLen] == old(names)[|old(names)| - 1]
    {
      hide Lists;
      hide Contents;
      hide StoredFirst;
      t := tagStack;
      PoppedLists(tagStack, freeTagList, open, free);
      PoppedContents(memory, window, owner, open, free, names);
      StoredLess(open);
      HoldsMeans(t, memory, window, names[|names| - 1]);
      hide Tag.Holds;
      tagStack := t.parent;
      open, names := open[..|open| - 1], names[..|names| - 1];
      t.place, t.parent := -1 - |free|, freeTagList;
      FreedLists(tagStack, freeTagList, open, free, t);
      FreedContents(memory, window, owner, open, free, names, t);
      freeTagList, free := t, free + [t];
    }

    /** The fields of an element that has just been opened. */
    method FillTag(t: Tag, at: nat, n: nat)
      requires Valid() && Detached(t) && at + n <= |memory[window]|
      modifies this`memory, this`owner, t
      ensures Valid() && Detached(t) && memory[window] == old(memory[window])
      ensures t.Holds(memory, window, memory[window][at..at + n]) && !t.Stored()
      ensures t.str.Just? <==> !inNamespace(memory[window][at..at + n])
      ensures t.localPart == if t.str.Just? then Nothing
                             else Just(Pointer(t.buf, LocalStart(memory[window][at..at + n])))
    {
      hide Lists;
      hide Contents;
      hide StoredFirst;
      hide Tag.Holds;
      t.rawName, t.rawNameLength, t.localPart := Pointer(window, at), n, Nothing;
      FillName(t, at, n);
      t.str := Just(Pointer(t.buf, 0));
      var name := memory[t.buf][..n];
      if inNamespace(name) {
        t.str, t.localPart := Nothing, Just(Pointer(t.buf, LocalStart(name)));
      }
      TagHolds(t, memory, window, name);
    }

    /** Opens an element whose name is the n bytes of the parse buffer from `at` on. */
    method OpenTag(at: nat, n: nat) returns (report: W.RawName)
      requires Valid() && stage.Inside? && at + n <= |memory[window]|
      modifies this`freeTagList, this`free, this`memory, this`owner, this`tagStack, this`tagLevel, this`open
      modifies this`names, Tags()
      ensures Valid() && fresh(Tags() - old(Tags())) && memory[window] == old(memory[window])
      ensures report == memory[window][at..at + n] && names == old(names) + [report]
    {
      hide Lists;
      hide Contents;
      hide StoredFirst;
      hide Tag.Holds;
      ghost var name := memory[window][at..at + n];
      var t := TakeTag();
      FillTag(t, at, n);
      PushTag(t, name);
      HoldsMeans(t, memory, window, name);
      report := memory[t.buf][..t.strLen];
    }

    /** A start tag. */
    method StartTag(at: nat, n: nat)
      requires Valid() && stage.Inside? && at + n <= |memory[window]|
      modifies this, Tags()
      ensures Valid() && fresh(Tags() - old(Tags())) && memory[window] == old(memory[window])
      ensures View() == W.Next(old(View()), W.Open(memory[window][at..at + n]))
    {
      hide Lists;
      hide Contents;
      hide StoredFirst;
      var report := OpenTag(at, n);
      events := events + [W.Start(report)];
    }

    /** An empty-element tag. */
    method EmptyElement(at: nat, n: nat)
      requires Valid() && stage.Inside? && at + n <= |memory[window]|
      modifies this`events, this`stage
      ensures Valid()
      ensures View() == W.Next(old(View()), W.Single(memory[window][at..at + n]))
    {
      hide Lists;
      hide Contents;
      hide StoredFirst;
      var name := memory[window][at..at + n];
      events := events + [W.Start(name), W.End(name)];
      if tagLevel == 0 {
        stage := W.Ended;
      }
    }

    /** Pops the innermost element, and compares its raw name with the name of the tag. */
    method CompareTop(at: nat, n: nat) returns (matches: bool, report: W.RawName)
      requires Valid() && |open| > 0 && at + n <= |memory[window]|
      modifies this`tagStack, this`freeTagList, this`open, this`names, this`free, open
      ensures window < |memory| && |old(names)| > 0 && Listed() && Filled() && StoredFirst(open)
      ensures open == old(open)[..|old(open)| - 1] && names == old(names)[..|old(names)| - 1] && |names| == |open|
      ensures Tags() == old(Tags())
      ensures report == old(names)[|old(names)| - 1]
      ensures matches <==> report == memory[window][at..at + n]
    {
      hide Lists;
      hide Contents;
      hide StoredFirst;
      TopIsOpen(tagStack, freeTagList, open, free);
      var t := PopTag();
      matches := t.rawNameLength == n && At(memory, t.rawName, n) == memory[window][at..at + n];
      report := memory[t.buf][..t.strLen];
    }

    /** An end tag: its name must be, byte for byte, the raw name of the innermost open element. */
    method EndTag(at: nat, n: nat)
      requires Valid() && stage.Inside? && at + n <= |memory[window]|
      modifies this, open
      ensures Valid() && Tags() == old(Tags()) && memory == old(memory) && window == old(window)
      ensures View() == W.Next(old(View()), W.Close(memory[window][at..at + n]))
    {
      hide Lists;
      hide Contents;
      hide StoredFirst;
      hide W.Next;
      W.CloseStep(View(), memory[window][at..at + n]);
      if tagLevel == 0 {
        stage := W.AsyncEntity;
        return;
      }
      var matches, report := CompareTop(at, n);
      if !matches {
        stage := W.TagMismatch;
        return;
      }
      tagLevel := tagLevel - 1;
      events := events + [W.End(report)];
      if tagLevel == 0 {
        stage := W.Ended;
      }
    }

    /** What points into the buffer of an element follows when the buffer moves. */
    method Repoint(t: Tag, to: nat)
      requires t.str.Just? ==> t.str.value == Pointer(t.buf, 0)
      requires t.localPart.Just? ==> t.localPart.value.buffer == t.buf
      modifies t`buf, t`str, t`localPart
      ensures t.buf == to && t.str == (if old(t.str.Just?) then Just(Pointer(to, 0)) else Nothing)
      ensures t.localPart == if old(t.localPart.Just?) then Just(Pointer(to, old(t.localPart.value.at))) else Nothing
    {
      if t.str == Just(Pointer(t.buf, 0)) {
        t.str := Just(Pointer(to, 0));
      }
      if t.localPart.Just? {
        t.localPart := Just(Pointer(to, t.localPart.value.at));
      }
      t.buf := to;
    }

    /** realloc for an open element whose raw name is still in the parse buffer. */
    method MoveOpen(t: Tag, longer: seq<Byte>, ghost k: nat)
      requires k < |open| && t == open[k] && Listed() && Filled() && !t.Stored()
      requires t.buf < |memory| && memory[t.buf] <= longer
      modifies this`memory, this`owner, t`buf, t`str, t`localPart
      ensures Listed() && Filled() && t.rawName.buffer == window
      ensures memory == old(memory) + [longer] && t.buf == |old(memory)|
      ensures SamePlaces(t)
    {
      hide Lists;
      hide Contents;
      SplitContents(memory, window, owner, open, free, names, k);
      NotAround(tagStack, freeTagList, open, free, k);
      ghost var name := names[k];
      HoldsMore(t, memory, window, name);
      AroundHolds(memory, window, owner, open, free, names, memory + [longer], owner + [t], |memory|, k);
      hide Tag.Holds;
      Repoint(t, |memory|);
      memory, owner := memory + [longer], owner + [t];
      TagHolds(t, memory, window, name);
      JoinContents(memory, window, owner, open, free, names, k);
    }

    /** memcpy of the raw name, behind the name in the element's own buffer. */
    method CopyRawName(t: Tag, ghost k: nat)
      requires k < |open| && t == open[k] && Listed() && Filled() && t.rawName.buffer == window
      requires t.buf < |memory| && t.strLen + 1 + t.rawNameLength <= |memory[t.buf]|
      modifies this`memory, t`rawName
      ensures Listed() && Filled() && t.Stored()
    {
      hide Lists;
      hide Contents;
      SplitContents(memory, window, owner, open, free, names, k);
      NotAround(tagStack, freeTagList, open, free, k);
      ghost var name := names[k];
      HoldsMore(t, memory, window, name);
      var nameLen := t.strLen + 1;
      var was, raw := memory[t.buf], At(memory, t.rawName, t.rawNameLength);
      var buffer := was[..nameLen] + raw + was[nameLen + t.rawNameLength..];
      AroundHolds(memory, window, owner, open, free, names, memory[t.buf := buffer], owner, t.buf, k);
      hide Tag.Holds;
      memory := memory[t.buf := buffer];
      t.rawName := Pointer(t.buf, nameLen);
      assert buffer[..t.strLen] == was[..t.strLen] && buffer[nameLen..nameLen + t.rawNameLength] == raw;
      TagHolds(t, memory, window, name);
      JoinContents(memory, window, owner, open, free, names, k);
    }

    /** One turn of the loop of storeRawNames. */
    method StoreRawName(t: Tag, ghost k: nat)
      requires k < |open| && t == open[k] && Listed() && Filled() && !t.Stored()
      modifies this`memory, this`owner, t`buf, t`rawName, t`str, t`localPart
      ensures Listed() && Filled() && t.Stored()
      ensures SamePlaces(t)
    {
      hide Lists;
      hide Contents;
      SplitContents(memory, window, owner, open, free, names, k);
      HoldsMore(t, memory, window, names[k]);
      hide Tag.Holds;
      var bufSize := t.strLen + 1 + t.rawNameLength;
      if bufSize > |memory[t.buf]| {
        MoveOpen(t, memory[t.buf] + seq(bufSize - |memory[t.buf]|, _ => 0), k);
      }
      CopyRawName(t, k);
    }

    /**
     * storeRawNames: every open element has its raw name in its own buffer.  The loop ends at the
     * first element whose raw name has been copied before.
     */
    method StoreRawNames()
      requires Valid()
      modifies this`memory, this`owner, open
      ensures Valid() && AllStored() && View() == old(View()) && open == old(open) && free == old(free)
      ensures forall i | 0 <= i < |open| :: SamePlaces(open[i])
    {
      hide Lists;
      hide Contents;
      hide StoredFirst;
      hide Tag.Stored;
      TopIsOpen(tagStack, freeTagList, open, free);
      var tag := tagStack;
      ghost var k: nat := |open|;
      assert open[..k] == open;
      while tag != null
        invariant k <= |open| && Listed() && Filled() && |names| == |open|
        invariant k == 0 <==> tag == null
        invariant k > 0 ==> tag == open[k - 1]
        invariant StoredFirst(open[..k]) && forall i | k <= i < |open| :: open[i].Stored()
        invariant forall i | 0 <= i < |open| :: SamePlaces(open[i])
        decreases k
      {
        assert tag == open[..k][k - 1];
        if tag.Stored() {
          StoredBefore(open[..k]);
          break;
        }
        ParentIs(tagStack, freeTagList, open, free, k - 1);
        NotAround(tagStack, freeTagList, open, free, k - 1);
        StoredLess(open[..k]);
        assert open[..k][..k - 1] == open[..k - 1];
        StoreRawName(tag, k - 1);
        tag := tag.parent;
        k := k - 1;
      }
      AllAreStored(open, k);
      ContentsMeans(memory, window, owner, open, free, names);
    }

    /** New input: the parse buffer is overwritten, or another buffer takes its place. */
    method NewInput(input: seq<Byte>, moves: bool)
      requires Valid() && AllStored()
      modifies this`memory, this`window, this`owner
      ensures Valid() && AllStored() && memory[window] == input
    {
      hide Lists;
      hide Contents;
      hide StoredFirst;
      ContentsMeans(memory, window, owner, open, free, names);
      if moves {
        InputReplaced(memory, window, owner, open, free, names, memory + [input], |memory|, owner + [null]);
        memory, window, owner := memory + [input], |memory|, owner + [null];
      } else {
        InputReplaced(memory, window, owner, open, free, names, memory[window := input], window, owner);
        memory := memory[window := input];
      }
    }
  }
}
