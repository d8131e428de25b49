/** Namespace scoping and expanded element names (xmlparse.c, addBinding and doContent).

    The structures the parser links by pointers are numbered here, and a pointer is the number of
    a structure.  Every prefix points to its current binding, every binding to the one it hides,
    and the names of open elements lie in the buffers of their bindings, which several open
    elements share and overwrite.  The parser is shown to report what plain scoping says. */
module Scopes {

  datatype Ptr = Null | At(i: nat)

  datatype Maybe<T> = Nothing | Just(value: T)

  /** A namespace declaration; prefix 0 is the default prefix, which has no name. */
  datatype Decl = Decl(prefix: nat, uri: string)

  /** The declaration in force: the last one for the prefix, unless it takes the binding away. */
  function Innermost(decls: seq<Decl>, p: nat): Maybe<string> {
    if |decls| == 0 then Nothing
    else
      var d := decls[|decls| - 1];
      if d.prefix != p then Innermost(decls[..|decls| - 1], p)
      else if d.uri == "" then Nothing
      else Just(d.uri)
  }

  /** The declaration at place i is the last one for p. */
  predicate LastFor(decls: seq<Decl>, p: nat, i: nat) {
    i < |decls| && decls[i].prefix == p && forall j | i < j < |decls| :: decls[j].prefix != p
  }

  /** A prefix is bound exactly when its last declaration has a URI, and then to that URI. */
  lemma {:induction false} InnermostExactly(decls: seq<Decl>, p: nat)
    ensures Innermost(decls, p).Just? <==> exists i: nat :: LastFor(decls, p, i) && decls[i].uri != ""
    ensures forall i: nat | LastFor(decls, p, i) && decls[i].uri != "" :: Innermost(decls, p) == Just(decls[i].uri)
    decreases |decls|
  {
    if |decls| > 0 {
      var n := |decls| - 1;
      if decls[n].prefix == p {
        assert LastFor(decls, p, n);
      } else {
        var before := decls[..n];
        InnermostExactly(before, p);
        forall i: nat
          ensures LastFor(decls, p, i) <==> LastFor(before, p, i)
        {
          if LastFor(decls, p, i) {
            assert i != n;
          }
        }
      }
    }
  }

  /** An element: its declarations, its name, and what it contains; an empty-element tag contains nothing. */
  datatype Tree = Element(decls: seq<Decl>, prefix: nat, local: string, empty: bool, children: seq<Tree>)

  datatype Error = None | Syntax | UnboundPrefix

  datatype Event = Start(name: string) | End(name: string)

  /** What a run reports, and the error that ends it. */
  datatype Report = Report(error: Error, events: seq<Event>)

  /** Only the default prefix can be undeclared. */
  predicate Refused(d: Decl) {
    d.uri == "" && d.prefix != 0
  }

  predicate AllGood(decls: seq<Decl>) {
    forall i | 0 <= i < |decls| :: !Refused(decls[i])
  }

  /** How names are put together: the separator (none, or one character), the names of the prefixes,
      and whether the prefix is appended once more (XML_SetReturnNSTriplet). */
  datatype Style = Style(separator: string, triplets: bool, prefixName: nat -> string)

  /** The character in front of a prefix that is appended: a zero when there is no separator. */
  function Mark(style: Style): char {
    if style.separator == "" then '\0' else style.separator[0]
  }

  /** Nothing is seen behind the local part when there is no separator: a zero stands in its place. */
  function Ending(style: Style, prefix: nat): string {
    if style.triplets && prefix != 0 && style.separator != "" then style.separator + style.prefixName(prefix) else ""
  }

  function FullName(style: Style, uri: string, prefix: nat, local: string): string {
    uri + style.separator + (local + Ending(style, prefix))
  }

  /** The zero-terminated string at the start of a buffer. */
  function CString(buffer: string): string {
    if |buffer| == 0 || buffer[0] == '\0' then "" else [buffer[0]] + CString(buffer[1..])
  }

  predicate NoNul(s: string) {
    forall i | 0 <= i < |s| :: s[i] != '\0'
  }

  lemma {:induction false} CStringIs(buffer: string, text: string)
    requires |text| < |buffer| && buffer[..|text|] == text && buffer[|text|] == '\0' && NoNul(text)
    ensures CString(buffer) == text
    decreases |text|
  {
    if |text| > 0 {
      assert buffer[0] == text[0];
      assert buffer[1..][..|text| - 1] == text[1..];
      CStringIs(buffer[1..], text[1..]);
    }
  }

  /** The name reported for an element: an unprefixed name outside any namespace stays as it is. */
  function Expanded(style: Style, decls: seq<Decl>, prefix: nat, local: string): Maybe<string> {
    var uri := Innermost(decls, prefix);
    if uri.Just? then Just(FullName(style, uri.value, prefix, local))
    else if prefix == 0 then Just(local)
    else Nothing
  }

  function Then(first: Report, second: Report): Report {
    if first.error.None? then Report(second.error, first.events + second.events) else first
  }

  /** The end of an element whose content has been read. */
  function Closed(content: Report, name: string): Report {
    Then(content, Report(None, [End(name)]))
  }

  /** An empty-element tag has no children. */
  function FirstChild(t: Tree): (k: nat)
    ensures k <= |t.children|
  {
    if t.empty then |t.children| else 0
  }

  /** What has been reported after one more report. */
  predicate Reported(before: seq<Event>, r: Report, error: Error, events: seq<Event>) {
    error == r.error && events == before + r.events
  }

  lemma {:induction false} ThenStep(done: seq<Event>, child: Report, rest: Report)
    ensures child.error.None? ==>
              Then(Report(None, done), Then(child, rest)) == Then(Report(None, done + child.events), rest)
    ensures !child.error.None? ==>
              Then(Report(None, done), Then(child, rest)) == Report(child.error, done + child.events)
  {
    assert done + (child.events + rest.events) == done + child.events + rest.events;
  }

  lemma {:induction false} ThenNothing(r: Report)
    ensures Then(Report(None, []), r) == r
  {
  }

  lemma {:induction false} NoMoreChildren(style: Style, decls: seq<Decl>, t: Tree, done: seq<Event>)
    ensures Then(Report(None, done), EventsOfAll(style, decls, t, |t.children|)) == Report(None, done)
  {
  }

  lemma {:induction false} ReportedMore(before: seq<Event>, first: Report, between: seq<Event>, second: Report,
                                        error: Error, events: seq<Event>)
    requires Reported(before, first, None, between) && Reported(between, second, error, events)
    ensures Reported(before, Then(first, second), error, events)
  {
    assert before + first.events + second.events == before + (first.events + second.events);
  }

  lemma {:induction false} ReportedError(before: seq<Event>, first: Report, second: Report, error: Error,
                                         events: seq<Event>)
    requires Reported(before, first, error, events) && !error.None?
    ensures Reported(before, Then(first, second), error, events)
  {
  }

  /** The events of an element inside the given declarations. */
  function EventsOf(style: Style, decls: seq<Decl>, t: Tree): Report
    decreases t, |t.children| + 2
  {
    var inner := decls + t.decls;
    if !AllGood(t.decls) then Report(Syntax, [])
    else
      var name := Expanded(style, inner, t.prefix, t.local);
      if name.Nothing? then Report(UnboundPrefix, [])
      else
        Then(Report(None, [Start(name.value)]), Closed(EventsOfAll(style, inner, t, FirstChild(t)), name.value))
  }

  /** What is reported for an element, by the way its start tag goes. */
  lemma {:induction false} ElementEvents(style: Style, decls: seq<Decl>, t: Tree)
    ensures var inner, r := decls + t.decls, EventsOf(style, decls, t);
            var name := Expanded(style, inner, t.prefix, t.local);
            if !AllGood(t.decls) then r == Report(Syntax, [])
            else if name.Nothing? then r == Report(UnboundPrefix, [])
            else
              var content := EventsOfAll(style, inner, t, FirstChild(t));
              r == Then(Report(None, [Start(name.value)]), Closed(content, name.value))
  {
    hide EventsOfAll;
  }

  lemma {:induction false} ChildEvents(style: Style, decls: seq<Decl>, t: Tree, k: nat)
    requires k < |t.children|
    ensures EventsOfAll(style, decls, t, k) ==
            Then(EventsOf(style, decls, t.children[k]), EventsOfAll(style, decls, t, k + 1))
  {
    hide EventsOf;
  }

  /** The events of the children from the k-th on. */
  function EventsOfAll(style: Style, decls: seq<Decl>, t: Tree, k: nat): Report
    requires k <= |t.children|
    decreases t, |t.children| - k + 1
  {
    if k == |t.children| then Report(None, [])
    else Then(EventsOf(style, decls, t.children[k]), EventsOfAll(style, decls, t, k + 1))
  }

  // ----- the numbered structures -----

  /** A BINDING: its buffer has a number too; `uriLen` characters of it are the name's beginning. */
  datatype Binding = Binding(prefix: nat, next: Ptr, prev: Ptr, uri: nat, uriLen: nat)

  /** The binding a prefix points to when these declarations are active. */
  function Current(active: seq<nat>, decls: seq<Decl>, p: nat): Ptr
    requires |active| == |decls|
  {
    if |decls| == 0 then Null
    else
      var n := |decls| - 1;
      if decls[n].prefix != p then Current(active[..n], decls[..n], p)
      else if decls[n].uri == "" then Null
      else At(active[n])
  }

  /** A list linked by `next`: its members, first one first. */
  predicate Linked(bs: seq<Binding>, head: Ptr, members: seq<nat>) {
    && (forall i | 0 <= i < |members| :: members[i] < |bs|)
    && head == (if |members| == 0 then Null else At(members[0]))
    && forall i | 0 <= i < |members| :: LinkAt(bs, members, i)
  }

  predicate LinkAt(bs: seq<Binding>, members: seq<nat>, i: nat)
    requires i < |members| && members[i] < |bs|
  {
    bs[members[i]].next == if i + 1 == |members| then Null else At(members[i + 1])
  }

  predicate Distinct(s: seq<nat>) {
    forall i, j | 0 <= i < j < |s| :: s[i] != s[j]
  }

  /** An active binding: what it declares, what it hides, and its buffer. */
  predicate Holds(separator: string, bs: seq<Binding>, buffers: seq<string>, active: seq<nat>, decls: seq<Decl>, i: nat)
    requires i < |active| == |decls| && active[i] < |bs|
  {
    var b := bs[active[i]];
    && b.prefix == decls[i].prefix
    && b.prev == Current(active[..i], decls[..i], b.prefix)
    && b.uri < |buffers| && b.uriLen <= |buffers[b.uri]|
    && buffers[b.uri][..b.uriLen] == decls[i].uri + separator
  }

  /** No two bindings share a buffer. */
  predicate OwnBuffers(bs: seq<Binding>, buffers: seq<string>) {
    && (forall i | 0 <= i < |bs| :: bs[i].uri < |buffers|)
    && forall i, j | 0 <= i < j < |bs| :: bs[i].uri != bs[j].uri
  }

  /** The active bindings and the prefixes that point to them. */
  predicate InScope(separator: string, bs: seq<Binding>, buffers: seq<string>, prefixes: seq<Ptr>,
                    active: seq<nat>, decls: seq<Decl>) {
    && |active| == |decls|
    && (forall i | 0 <= i < |active| :: active[i] < |bs|)
    && (forall i | 0 <= i < |active| :: Holds(separator, bs, buffers, active, decls, i))
    && (forall p | 0 <= p < |prefixes| :: prefixes[p] == Current(active, decls, p))
    && (forall i | 0 <= i < |decls| :: decls[i].prefix < |prefixes|)
    && AllGood(decls)
  }

  /** The current binding is the innermost declaration. */
  lemma {:induction false} CurrentIsInnermost(separator: string, bs: seq<Binding>, buffers: seq<string>,
                                              prefixes: seq<Ptr>,
                                              active: seq<nat>, decls: seq<Decl>, n: nat, p: nat)
    requires InScope(separator, bs, buffers, prefixes, active, decls) && n <= |active|
    ensures var c := Current(active[..n], decls[..n], p);
            && (c.Null? <==> Innermost(decls[..n], p).Nothing?)
            && (c.At? ==> exists i :: 0 <= i < n && active[i] == c.i && Innermost(decls[..n], p) == Just(decls[i].uri))
    decreases n
  {
    if n > 0 {
      assert decls[..n][..n - 1] == decls[..n - 1] && active[..n][..n - 1] == active[..n - 1];
      if decls[n - 1].prefix != p {
        CurrentIsInnermost(separator, bs, buffers, prefixes, active, decls, n - 1, p);
      } else {
        assert active[n - 1] == active[..n][n - 1];
      }
    }
  }
}

/** The parser's routines over these structures. */
module NamespaceParsing {
  import opened Scopes

  const EXPAND_SPARE: nat := 24

  /** memcpy into a buffer. */
  function Overwrite(buffer: string, at: nat, text: string): (r: string)
    requires at + |text| <= |buffer|
    ensures |r| == |buffer| && r[..at] == buffer[..at] && r[at..at + |text|] == text
  {
    buffer[..at] + text + buffer[at + |text|..]
  }

  /** The name of an open element: where it lies, and its parts; prefixLen counts a zero too. */
  datatype TagName = TagName(str: Ptr, uriLen: nat, localPart: string, prefix: nat, prefixLen: nat)

  /** The room that the prefix takes in the name. */
  function PrefixLen(style: Style, prefix: nat): nat {
    if style.triplets && prefix != 0 then |style.prefixName(prefix)| + 1 else 0
  }

  lemma {:induction false} SpelledName(style: Style, prefix: nat, local: string, buffer: string, from: nat, to: nat)
    requires |style.separator| <= 1 && from <= to <= |buffer|
    requires buffer[from..to] == if style.triplets && prefix != 0
                                 then local + [Mark(style)] + style.prefixName(prefix) + ['\0']
                                 else local + ['\0']
    ensures var full := local + Ending(style, prefix);
            && from + |full| + 1 <= |buffer|
            && buffer[from..from + |full|] == full && buffer[from + |full|] == '\0'
  {
    var name, full := buffer[from..to], local + Ending(style, prefix);
    assert full + ['\0'] <= name;
    assert name[|full|] == '\0' && name[..|full|] == full && buffer[from + |full|] == name[|full|];
    assert buffer[from..from + |full|] == name[..|full|];
  }

  /** There is a default prefix, the separator is one character at most, and no string contains a zero. */
  ghost predicate WellFormed(style: Style, nPrefixes: nat) {
    && nPrefixes > 0 && |style.separator| <= 1 && NoNul(style.separator)
    && forall p: nat | p < nPrefixes :: NoNul(style.prefixName(p))
  }

  /** The parts of a name that an element has been given. */
  predicate IsNameOf(style: Style, name: TagName, prefix: nat, local: string) {
    name.localPart == local && name.prefix == prefix && (name.str.At? ==> name.prefixLen == PrefixLen(style, prefix))
  }

  /** The name lies in the buffer of an active binding, and what follows the URI fits behind it. */
  predicate Lies(bs: seq<Binding>, buffers: seq<string>, active: seq<nat>, t: TagName, owner: nat) {
    t.str.At? ==>
      && owner < |active| && active[owner] < |bs|
      && bs[active[owner]].uri == t.str.i < |buffers| && bs[active[owner]].uriLen == t.uriLen
      && t.uriLen + |t.localPart| + 1 + t.prefixLen <= |buffers[t.str.i]|
  }

  /** Active records and the beginnings of their buffers are as they were. */
  predicate Kept(bs: seq<Binding>, buffers: seq<string>, cs: seq<Binding>, cuffers: seq<string>, active: seq<nat>) {
    && |bs| <= |cs|
    && forall i | 0 <= i < |active| :: active[i] < |bs| && KeptOne(bs[active[i]], buffers, cs[active[i]], cuffers)
  }

  /** The buffer may have moved and grown; what it begins with has not changed. */
  predicate KeptOne(b: Binding, buffers: seq<string>, c: Binding, cuffers: seq<string>) {
    && c == b.(uri := c.uri) && b.uri < |buffers| && c.uri < |cuffers|
    && b.uriLen <= |buffers[b.uri]| <= |cuffers[c.uri]|
    && cuffers[c.uri][..b.uriLen] == buffers[b.uri][..b.uriLen]
  }

  lemma {:induction false} KeptInScope(separator: string, bs: seq<Binding>, buffers: seq<string>, cs: seq<Binding>,
                                       cuffers: seq<string>,
                                       prefixes: seq<Ptr>, active: seq<nat>, decls: seq<Decl>)
    requires InScope(separator, bs, buffers, prefixes, active, decls) && Kept(bs, buffers, cs, cuffers, active)
    ensures InScope(separator, cs, cuffers, prefixes, active, decls)
  {
    hide Current;
    hide AllGood;
    forall i | 0 <= i < |active|
      ensures Holds(separator, cs, cuffers, active, decls, i)
    {
      assert Holds(separator, bs, buffers, active, decls, i);
      assert KeptOne(bs[active[i]], buffers, cs[active[i]], cuffers);
    }
  }

  lemma {:induction false} LinkedKept(bs: seq<Binding>, cs: seq<Binding>, head: Ptr, members: seq<nat>)
    requires Linked(bs, head, members) && |bs| <= |cs|
    requires forall i | 0 <= i < |members| :: cs[members[i]].next == bs[members[i]].next
    ensures Linked(cs, head, members)
  {
    forall i | 0 <= i < |members|
      ensures LinkAt(cs, members, i)
    {
      assert LinkAt(bs, members, i);
    }
  }

  lemma {:induction false} LinkedTail(bs: seq<Binding>, head: Ptr, members: seq<nat>)
    requires Linked(bs, head, members) && head.At?
    ensures |members| > 0 && members[0] == head.i && head.i < |bs| && Linked(bs, bs[head.i].next, members[1..])
  {
    assert LinkAt(bs, members, 0);
    forall i | 0 <= i < |members| - 1
      ensures LinkAt(bs, members[1..], i)
    {
      assert LinkAt(bs, members, i + 1);
    }
  }

  /** The same names, in buffers that may have moved. */
  predicate SameNames(s: seq<TagName>, t: seq<TagName>) {
    && |s| == |t|
    && forall i | 0 <= i < |s| :: t[i] == s[i].(str := t[i].str) && (s[i].str.At? <==> t[i].str.At?)
  }

  /** An element whose prefixes exist, and whose strings contain no zero. */
  predicate Readable(t: Tree, nPrefixes: nat) {
    && t.prefix < nPrefixes && NoNul(t.local)
    && (forall i | 0 <= i < |t.decls| :: t.decls[i].prefix < nPrefixes && NoNul(t.decls[i].uri))
    && forall k | 0 <= k < |t.children| :: Readable(t.children[k], nPrefixes)
  }

  /** The list of one element: its bindings from `lo` on, newest first. */
  predicate Chained(bs: seq<Binding>, head: Ptr, active: seq<nat>, lo: nat)
    requires forall i | 0 <= i < |active| :: active[i] < |bs|
  {
    && head == (if |active| <= lo then Null else At(active[|active| - 1]))
    && forall i | lo <= i < |active| :: ChainAt(bs, active, lo, i)
  }

  predicate ChainAt(bs: seq<Binding>, active: seq<nat>, lo: nat, i: nat)
    requires lo <= i < |active| && active[i] < |bs|
  {
    bs[active[i]].next == if i == lo then Null else At(active[i - 1])
  }

  class NamespaceParser {
    const style: Style
    var bindings: seq<Binding>
    var buffers: seq<string>
    var prefixes: seq<Ptr>
    var freeBindingList: Ptr
    var tagStack: seq<TagName>
    var events: seq<Event>

    /** The active bindings, oldest first, with what they declare; the free ones; the names' owners. */
    ghost var active: seq<nat>
    ghost var decls: seq<Decl>
    ghost var free: seq<nat>
    ghost var owners: seq<nat>

    /** Every binding record is either active or free, and on no list twice. */
    ghost predicate Valid()
      reads this`bindings, this`buffers, this`prefixes, this`freeBindingList, this`tagStack
      reads this`active, this`decls, this`free, this`owners
    {
      && WellFormed(style, |prefixes|)
      && InScope(style.separator, bindings, buffers, prefixes, active, decls)
      && OwnBuffers(bindings, buffers)
      && Linked(bindings, freeBindingList, free)
      && Distinct(active + free)
      && (forall i | 0 <= i < |bindings| :: i in active + free)
      && |owners| == |tagStack|
      && (forall i | 0 <= i < |tagStack| :: Lies(bindings, buffers, active, tagStack[i], owners[i]))
      && (forall i | 0 <= i < |decls| :: NoNul(decls[i].uri))
    }

    constructor (style: Style, nPrefixes: nat)
      requires WellFormed(style, nPrefixes)
      ensures Valid() && this.style == style && |prefixes| == nPrefixes
      ensures decls == [] && active == [] && events == [] && tagStack == []
    {
      this.style := style;
      bindings, buffers, tagStack, events := [], [], [], [];
      prefixes := seq(nPrefixes, _ => Null);
      freeBindingList := Null;
      active, decls, free, owners := [], [], [], [];
    }

    /** A record that is on no list: the others are as they were. */
    ghost predicate Detached(b: nat)
      reads this
    {
      && InScope(style.separator, bindings, buffers, prefixes, active, decls)
      && OwnBuffers(bindings, buffers) && Linked(bindings, freeBindingList, free)
      && b < |bindings| && Distinct(active + [b] + free)
      && (forall i | 0 <= i < |bindings| :: i in active + [b] + free)
      && |owners| == |tagStack|
      && (forall i | 0 <= i < |tagStack| :: Lies(bindings, buffers, active, tagStack[i], owners[i]))
    }

    /** The first record of the free list. */
    method Recycle() returns (b: nat)
      requires Valid() && freeBindingList.At?
      modifies this`freeBindingList, this`free
      ensures Detached(b)
    {
      hide InScope;
      hide OwnBuffers;
      hide Lies;
      LinkedTail(bindings, freeBindingList, free);
      b := freeBindingList.i;
      freeBindingList := bindings[b].next;
      assert active + free == active + [b] + free[1..];
      free := free[1..];
    }

    /** A new record with a buffer. */
    method Allocate(len: nat) returns (b: nat)
      requires Valid()
      modifies this`bindings, this`buffers
      ensures Detached(b) && len <= |buffers[bindings[b].uri]| && |old(bindings)| <= |bindings|
      ensures forall i | 0 <= i < |active| ::
                active[i] < |old(bindings)| && bindings[active[i]] == old(bindings[active[i]])
    {
      b := |bindings|;
      NewRecord(style.separator, bindings, buffers, prefixes, active, decls, free, freeBindingList, tagStack, owners, len);
      buffers := buffers + [seq(len + EXPAND_SPARE, _ => '\0')];
      bindings := bindings + [Binding(0, Null, Null, |buffers| - 1, 0)];
    }

    /** REALLOC for a recycled record whose buffer is too short. */
    method Fit(b: nat, len: nat)
      requires Detached(b)
      modifies this`bindings, this`buffers
      ensures Detached(b) && len <= |buffers[bindings[b].uri]| && |old(bindings)| == |bindings|
      ensures forall i | 0 <= i < |bindings| && i != b :: bindings[i] == old(bindings[i])
    {
      if len > |buffers[bindings[b].uri]| {
        var grown := seq(len + EXPAND_SPARE, _ => '\0');
        ChangedRecord(style.separator, bindings, buffers, prefixes, active, decls, free, freeBindingList, tagStack, owners,
                      b, bindings[b].(uri := |buffers|), buffers + [grown]);
        bindings := bindings[b := bindings[b].(uri := |buffers|)];
        buffers := buffers + [grown];
      }
    }

    /**
     * addBinding: the binding hides the prefix's current one, and goes to the head of the list of
     * its element.  The empty URI takes the default binding away; with a named prefix it is an error.
     */
    method AddBinding(prefix: nat, uri: string, head: Ptr) returns (error: Error, newHead: Ptr)
      requires Valid() && prefix < |prefixes| && NoNul(uri)
      modifies this`bindings, this`buffers, this`prefixes, this`freeBindingList, this`active, this`decls, this`free
      ensures Valid() && |prefixes| == |old(prefixes)|
      ensures error == if Refused(Decl(prefix, uri)) then Syntax else None
      ensures !error.None? ==> active == old(active) && decls == old(decls) && newHead == head
      ensures error.None? ==> decls == old(decls) + [Decl(prefix, uri)]
      ensures error.None? ==>
                && |active| == |old(active)| + 1 && active[..|old(active)|] == old(active)
                && newHead == At(active[|old(active)|]) && bindings[newHead.i].next == head
      ensures |old(bindings)| <= |bindings|
      ensures forall i | 0 <= i < |old(active)| :: bindings[old(active[i])].next == old(bindings[active[i]].next)
      ensures tagStack == old(tagStack) && owners == old(owners)
    {
      if uri == "" && prefix != 0 {
        return Syntax, head;
      }
      var len := |uri| + |style.separator|;
      var b;
      if freeBindingList.At? {
        b := Recycle();
        Fit(b, len);
      } else {
        b := Allocate(len);
      }
      OnNoList(active, b, free);
      Attach(b, prefix, uri, head);
      return None, At(b);
    }

    /** Fills a detached record and makes it the current binding of its prefix. */
    method Attach(b: nat, prefix: nat, uri: string, head: Ptr)
      requires Detached(b) && prefix < |prefixes| && NoNul(uri) && !Refused(Decl(prefix, uri))
      requires WellFormed(style, |prefixes|) && forall i | 0 <= i < |decls| :: NoNul(decls[i].uri)
      requires |uri| + |style.separator| <= |buffers[bindings[b].uri]|
      modifies this`bindings, this`buffers, this`prefixes, this`active, this`decls
      ensures Valid() && |prefixes| == |old(prefixes)| && |bindings| == |old(bindings)|
      ensures decls == old(decls) + [Decl(prefix, uri)] && active == old(active) + [b]
      ensures bindings[b].next == head
      ensures forall i | 0 <= i < |bindings| && i != b :: bindings[i] == old(bindings[i])
    {
      hide Current;
      var at := bindings[b].uri;
      var record := Binding(prefix, head, prefixes[prefix], at, |uri| + |style.separator|);
      var filled := buffers[at := Overwrite(buffers[at], 0, uri + style.separator)];
      ChangedRecord(style.separator, bindings, buffers, prefixes, active, decls, free, freeBindingList, tagStack, owners,
                    b, record, filled);
      AttachedRecord(style.separator, bindings[b := record], filled, prefixes, active, decls, b, Decl(prefix, uri));
      buffers := filled;
      bindings := bindings[b := record];
      prefixes := prefixes[prefix := if uri == "" && prefix == 0 then Null else At(b)];
      assert forall i | 0 <= i < |tagStack| :: Lies(bindings, buffers, active + [b], tagStack[i], owners[i]);
      active := active + [b];
      decls := decls + [Decl(prefix, uri)];
    }

    /** Open names that are not in the bindings from here on. */
    ghost predicate NamesBelow(lo: nat)
      reads this`tagStack, this`owners
    {
      |owners| == |tagStack| && forall i | 0 <= i < |tagStack| :: tagStack[i].str.At? ==> owners[i] < lo
    }

    /** Takes the newest binding off its list: its prefix gets back what it hid. */
    method PopOne(head: nat) returns (rest: Ptr)
      requires Valid() && |active| > 0 && head == active[|active| - 1] && NamesBelow(|active| - 1)
      modifies this`bindings, this`prefixes, this`freeBindingList, this`active, this`decls, this`free
      ensures Valid() && |prefixes| == |old(prefixes)| && |bindings| == |old(bindings)|
      ensures active == old(active)[..|old(active)| - 1] && decls == old(decls)[..|old(active)| - 1]
      ensures rest == old(bindings[head].next)
      ensures forall i | 0 <= i < |bindings| && i != head :: bindings[i] == old(bindings[i])
      ensures forall i | 0 <= i < |active| :: active[i] != head
    {
      hide Current;
      rest := bindings[head].next;
      PoppedRecord(style.separator, bindings, buffers, prefixes, active, decls, free, freeBindingList, tagStack, owners);
      var b := bindings[head];
      bindings := bindings[head := b.(next := freeBindingList)];
      freeBindingList := At(head);
      prefixes := prefixes[b.prefix := b.prev];
      var n := |active| - 1;
      active, decls, free := active[..n], decls[..n], [head] + free;
    }

    /** The end of an element: all its bindings go, newest first. */
    method PopBindings(list: Ptr, ghost lo: nat)
      requires Valid() && lo <= |active| && Chained(bindings, list, active, lo) && NamesBelow(lo)
      modifies this`bindings, this`prefixes, this`freeBindingList, this`active, this`decls, this`free
      ensures Valid() && |prefixes| == |old(prefixes)| && |bindings| == |old(bindings)|
      ensures active == old(active)[..lo] && decls == old(decls)[..lo]
      ensures forall i | 0 <= i < lo :: bindings[active[i]].next == old(bindings[active[i]].next)
    {
      hide Valid;
      ActiveRecords();
      var head := list;
      while head.At?
        invariant Valid() && lo <= |active| <= |old(active)|
        invariant |prefixes| == |old(prefixes)| && |bindings| == |old(bindings)|
        invariant forall i | 0 <= i < |active| :: active[i] < |bindings|
        invariant active == old(active)[..|active|] && decls == old(decls)[..|active|]
        invariant Chained(bindings, head, active, lo)
        invariant forall i | 0 <= i < lo :: bindings[active[i]].next == old(bindings[active[i]].next)
        decreases |active|
      {
        ghost var was, before := active, bindings;
        assert head == At(active[|active| - 1]) && ChainAt(bindings, active, lo, |active| - 1);
        ActiveRecords();
        head := PopOne(head.i);
        ActiveRecords();
        forall i | lo <= i < |active|
          ensures ChainAt(bindings, active, lo, i)
        {
          assert ChainAt(before, was, lo, i) && active[i] == was[i];
        }
      }
    }

    lemma {:induction false} ActiveRecords()
      requires Valid()
      ensures |active| == |decls| && forall i | 0 <= i < |active| :: active[i] < |bindings|
    {
    }

    /** What a change of name buffers leaves alone. */
    twostate predicate OnlyBuffers()
      reads this
    {
      && active == old(active) && decls == old(decls) && prefixes == old(prefixes) && owners == old(owners)
      && |bindings| == |old(bindings)| && SameNames(old(tagStack), tagStack)
      && forall i | 0 <= i < |bindings| :: bindings[i] == old(bindings[i]).(uri := bindings[i].uri)
    }

    /**
     * The end of storeAtts: the expanded name is built behind the URI in the binding's buffer,
     * which open elements of the same namespace share; a longer buffer takes their names along.
     */
    method StoreName(prefix: nat, local: string) returns (error: Error, name: TagName, ghost owner: nat, report: string)
      requires Valid() && prefix < |prefixes| && NoNul(local)
      modifies this`bindings, this`buffers, this`tagStack
      ensures Valid() && OnlyBuffers()
      ensures var e := Expanded(style, decls, prefix, local);
              if e.Nothing? then error == UnboundPrefix else error == None && report == e.value
      ensures error.None? ==> IsNameOf(style, name, prefix, local) && Lies(bindings, buffers, active, name, owner)
      ensures error.None? ==> (name.str.At? <==> Innermost(decls, prefix).Just?)
      ensures error.None? && name.str.At? ==>
                && owner < |decls| && Innermost(decls, prefix) == Just(decls[owner].uri)
                && CString(buffers[name.str.i]) == FullName(style, decls[owner].uri, prefix, local)
    {
      hide Current;
      assert active[..|active|] == active && decls[..|decls|] == decls;
      CurrentIsInnermost(style.separator, bindings, buffers, prefixes, active, decls, |active|, prefix);
      owner := 0;
      if prefixes[prefix].Null? {
        if prefix != 0 {
          return UnboundPrefix, TagName(Null, 0, local, prefix, 0), 0, "";
        }
        return None, TagName(Null, 0, local, prefix, 0), 0, local;
      }
      var b := prefixes[prefix].i;
      owner :| 0 <= owner < |active| && active[owner] == b && Innermost(decls, prefix) == Just(decls[owner].uri);
      name := Build(b, prefix, local, owner);
      report := CString(buffers[name.str.i]);
      error := None;
    }

    /** The name behind the URI of one binding. */
    method Build(b: nat, prefix: nat, local: string, ghost owner: nat) returns (name: TagName)
      requires Valid() && owner < |active| && active[owner] == b && prefix < |prefixes| && NoNul(local)
      modifies this`bindings, this`buffers, this`tagStack
      ensures Valid() && OnlyBuffers()
      ensures name.str.At? && IsNameOf(style, name, prefix, local) && Lies(bindings, buffers, active, name, owner)
      ensures CString(buffers[name.str.i]) == FullName(style, decls[owner].uri, prefix, local)
    {
      assert Holds(style.separator, bindings, buffers, active, decls, owner);
      var n := |local| + 1 + bindings[b].uriLen + PrefixLen(style, prefix);
      if n > |buffers[bindings[b].uri]| {
        MoveBuffer(b, n, owner);
      }
      assert Holds(style.separator, bindings, buffers, active, decls, owner);
      var at := bindings[b].uri;
      WriteName(at, bindings[b].uriLen, prefix, local, owner);
      name := TagName(At(at), bindings[b].uriLen, local, prefix, PrefixLen(style, prefix));
    }

    /** A longer buffer for a binding: the URI is copied, and the names of open elements follow. */
    method MoveBuffer(b: nat, n: nat, ghost owner: nat)
      requires Valid() && owner < |active| && active[owner] == b && n > |buffers[bindings[b].uri]|
      modifies this`bindings, this`buffers, this`tagStack
      ensures Valid() && OnlyBuffers() && n <= |buffers[bindings[b].uri]|
    {
      assert Holds(style.separator, bindings, buffers, active, decls, owner);
      var from, to := bindings[b].uri, |buffers|;
      var uri := seq(n + EXPAND_SPARE, _ => '\0');
      uri := Overwrite(uri, 0, buffers[from][..bindings[b].uriLen]);
      ghost var names := tagStack;
      var moved := tagStack;
      var p := |tagStack|;
      while p != 0
        invariant 0 <= p <= |names| && |moved| == |names|
        invariant forall i | 0 <= i < |names| ::
                    moved[i] == if i >= p && names[i].str == At(from) then names[i].(str := At(to)) else names[i]
      {
        p := p - 1;
        if moved[p].str == At(from) {
          moved := moved[p := moved[p].(str := At(to))];
        }
      }
      MovedBuffer(style.separator, bindings, buffers, prefixes, active, decls, free, freeBindingList, names, owners, owner,
                  bindings[b], uri, moved);
      tagStack := moved;
      buffers := buffers + [uri];
      bindings := bindings[b := bindings[b].(uri := to)];
    }

    /** Copies characters into a buffer, one by one; `from` is where the name's own part begins. */
    method Put(at: nat, from: nat, to: nat, text: string) returns (end: nat)
      requires at < |buffers| && from <= to && to + |text| <= |buffers[at]|
      modifies this`buffers
      ensures end == to + |text| && |buffers| == |old(buffers)| && |buffers[at]| == |old(buffers[at])|
      ensures buffers[at][..from] == old(buffers[at])[..from]
      ensures buffers[at][from..end] == old(buffers[at])[from..to] + text
      ensures forall k | 0 <= k < |buffers| && k != at :: buffers[k] == old(buffers[k])
    {
      end := to;
      var i := 0;
      while i < |text|
        invariant 0 <= i <= |text| && end == to + i
        invariant |buffers| == |old(buffers)| && |buffers[at]| == |old(buffers[at])|
        invariant buffers[at][..from] == old(buffers[at])[..from]
        invariant buffers[at][from..end] == old(buffers[at])[from..to] + text[..i]
        invariant forall k | 0 <= k < |buffers| && k != at :: buffers[k] == old(buffers[k])
      {
        OneMoreChar(buffers[at], from, end, text[i]);
        assert text[..i + 1] == text[..i] + [text[i]];
        buffers := buffers[at := buffers[at][end := text[i]]];
        end := end + 1;
        i := i + 1;
      }
      assert text[..i] == text;
    }

    /** The local part, the prefix if it is wanted, and a zero. */
    method Spell(at: nat, uriLen: nat, prefix: nat, local: string)
      requires |style.separator| <= 1
      requires at < |buffers| && uriLen + |local| + 1 + PrefixLen(style, prefix) <= |buffers[at]|
      modifies this`buffers
      ensures |buffers| == |old(buffers)| && |buffers[at]| == |old(buffers[at])|
      ensures buffers[at][..uriLen] == old(buffers[at])[..uriLen]
      ensures forall k | 0 <= k < |buffers| && k != at :: buffers[k] == old(buffers[k])
      ensures var full := local + Ending(style, prefix);
              && uriLen + |full| + 1 <= |buffers[at]|
              && buffers[at][uriLen..uriLen + |full|] == full && buffers[at][uriLen + |full|] == '\0'
    {
      var to := Put(at, uriLen, uriLen, local);
      if style.triplets && prefix != 0 {
        to := Put(at, uriLen, to, [Mark(style)]);
        to := Put(at, uriLen, to, style.prefixName(prefix));
      }
      to := Put(at, uriLen, to, ['\0']);
      SpelledName(style, prefix, local, buffers[at], uriLen, to);
    }

    /** The name is completed behind the URI of an active binding. */
    method WriteName(at: nat, uriLen: nat, prefix: nat, local: string, ghost owner: nat)
      requires Valid() && owner < |active| && prefix < |prefixes| && NoNul(local)
      requires at == bindings[active[owner]].uri && uriLen == bindings[active[owner]].uriLen
      requires uriLen + |local| + 1 + PrefixLen(style, prefix) <= |buffers[at]|
      modifies this`buffers
      ensures Valid() && |buffers| == |old(buffers)| && |buffers[at]| == |old(buffers[at])|
      ensures CString(buffers[at]) == FullName(style, decls[owner].uri, prefix, local)
    {
      hide CString;
      ghost var start, full := buffers, local + Ending(style, prefix);
      Spell(at, uriLen, prefix, local);
      WrittenName(style.separator, bindings, start, buffers, prefixes, active, decls, tagStack, owners, owner,
                  bindings[active[owner]], full);
    }

    /** The end tag: what follows the URI may have been overwritten, and is put back before the report. */
    method EndName(name: TagName, ghost owner: nat) returns (report: string)
      requires Valid() && name.prefix < |prefixes| && NoNul(name.localPart)
      requires Lies(bindings, buffers, active, name, owner) && IsNameOf(style, name, name.prefix, name.localPart)
      modifies this`buffers
      ensures Valid()
      ensures report == if name.str.At? then FullName(style, decls[owner].uri, name.prefix, name.localPart)
                        else name.localPart
    {
      if name.str.Null? {
        return name.localPart;
      }
      WriteName(name.str.i, name.uriLen, name.prefix, name.localPart, owner);
      report := CString(buffers[name.str.i]);
    }

    /** What an element that was read without an error leaves as it was. */
    twostate predicate Restored()
      reads this
    {
      && active == old(active) && decls == old(decls) && prefixes == old(prefixes)
      && owners == old(owners) && SameNames(old(tagStack), tagStack) && |old(bindings)| <= |bindings|
      && forall i | 0 <= i < |active| ::
           active[i] < |old(bindings)| && bindings[active[i]].next == old(bindings[active[i]].next)
    }

    /** The declarations of a start tag, from the i-th on. */
    method Declare(t: Tree, i: nat, head: Ptr, ghost lo: nat) returns (error: Error, list: Ptr)
      requires Valid() && Readable(t, |prefixes|) && i <= |t.decls| && lo <= |active|
      requires (forall k | 0 <= k < |active| :: active[k] < |bindings|) && Chained(bindings, head, active, lo)
      modifies this`bindings, this`buffers, this`prefixes, this`freeBindingList, this`active, this`decls, this`free
      ensures Valid() && |prefixes| == |old(prefixes)|
      ensures error == if AllGood(t.decls[i..]) then None else Syntax
      ensures error.None? ==> Declared(old(bindings), old(active), lo, list) && decls == old(decls) + t.decls[i..]
      decreases |t.decls| - i
    {
      hide Valid;
      if i == |t.decls| {
        return None, head;
      }
      ActiveRecords();
      ghost var was, before := active, bindings;
      error, list := AddBinding(t.decls[i].prefix, t.decls[i].uri, head);
      ActiveRecords();
      GoodFrom(t.decls, i);
      if !error.None? {
        return;
      }
      AddedChain(before, was, bindings, active, lo, head, list);
      ghost var between, more := bindings, active;
      error, list := Declare(t, i + 1, list, lo);
      if error.None? {
        assert active[..|was|] == more[..|was|] == was;
      }
    }

    /** New bindings at the head of one list; the older ones keep their links. */
    ghost predicate Declared(bs: seq<Binding>, was: seq<nat>, lo: nat, list: Ptr)
      reads this`bindings, this`active
    {
      && |active| >= |was| && active[..|was|] == was && |bs| <= |bindings|
      && (forall k | 0 <= k < |active| :: active[k] < |bindings|)
      && Chained(bindings, list, active, lo)
      && forall k | 0 <= k < lo && k < |was| :: was[k] < |bs| && bindings[was[k]].next == bs[was[k]].next
    }

    /** A start tag: its bindings and its name. */
    method StartElement(t: Tree) returns (error: Error, list: Ptr, name: TagName, ghost owner: nat)
      requires Valid() && Readable(t, |prefixes|)
      modifies this`bindings, this`buffers, this`prefixes, this`freeBindingList, this`active, this`decls, this`free
      modifies this`tagStack, this`events
      ensures Valid() && |prefixes| == |old(prefixes)|
      ensures error == (if !AllGood(t.decls) then Syntax
                        else if Expanded(style, old(decls) + t.decls, t.prefix, t.local).Nothing? then UnboundPrefix
                        else None)
      ensures !error.None? ==> events == old(events)
      ensures error.None? ==>
                && Declared(old(bindings), old(active), |old(active)|, list) && decls == old(decls) + t.decls
                && owners == old(owners) && SameNames(old(tagStack), tagStack)
                && events == old(events) + [Start(Expanded(style, decls, t.prefix, t.local).value)]
                && IsNameOf(style, name, t.prefix, t.local) && Lies(bindings, buffers, active, name, owner)
                && (name.str.At? ==>
                      && owner < |decls|
                      && CString(buffers[name.str.i]) == FullName(style, decls[owner].uri, t.prefix, t.local))
                && Expanded(style, decls, t.prefix, t.local) ==
                   Just(if name.str.At? then FullName(style, decls[owner].uri, t.prefix, t.local) else t.local)
    {
      hide Valid;
      ActiveRecords();
      ghost var lo := |active|;
      error, list := Declare(t, 0, Null, lo);
      assert t.decls[0..] == t.decls;
      if !error.None? {
        return error, Null, TagName(Null, 0, "", 0, 0), 0;
      }
      ghost var before := bindings;
      var report;
      error, name, owner, report := StoreName(t.prefix, t.local);
      if !error.None? {
        return;
      }
      ChainedKept(before, bindings, list, active, lo);
      events := events + [Start(report)];
    }

    method PushTag(name: TagName, ghost owner: nat)
      requires Valid() && Lies(bindings, buffers, active, name, owner)
      modifies this`tagStack, this`owners
      ensures Valid() && tagStack == old(tagStack) + [name] && owners == old(owners) + [owner]
    {
      tagStack, owners := tagStack + [name], owners + [owner];
    }

    method PopTag() returns (name: TagName, ghost owner: nat)
      requires Valid() && |tagStack| > 0
      modifies this`tagStack, this`owners
      ensures Valid() && |old(owners)| == |old(tagStack)| && Lies(bindings, buffers, active, name, owner)
      ensures name == old(tagStack)[|old(tagStack)| - 1] && owner == old(owners)[|old(owners)| - 1]
      ensures tagStack == old(tagStack)[..|old(tagStack)| - 1] && owners == old(owners)[..|old(owners)| - 1]
    {
      var n := |tagStack| - 1;
      name, owner := tagStack[n], owners[n];
      assert Lies(bindings, buffers, active, tagStack[n], owners[n]);
      tagStack, owners := tagStack[..n], owners[..n];
    }

    /**
     * An element: its tags, its bindings and its children.  What is reported is what scoping says,
     * with the same name at the start and at the end; and every prefix is bound as before.
     */
    method DoElement(t: Tree) returns (error: Error)
      requires Valid() && Readable(t, |prefixes|)
      modifies this
      ensures Valid() && |prefixes| == |old(prefixes)|
      ensures Reported(old(events), EventsOf(style, old(decls), t), error, events)
      ensures error.None? ==> Restored()
      decreases t, |t.children| + 2
    {
      hide EventsOfAll;
      hide Chained;
      hide EventsOf;
      hide Valid;
      hide CString;
      NamesInActive();
      PrefixesAre();
      ActiveRecords();
      ghost var lo := |active|;
      ghost var names := tagStack;
      var list, name;
      ghost var owner;
      ghost var inner := decls + t.decls;
      ghost var first := Expanded(style, inner, t.prefix, t.local);
      ghost var content := EventsOfAll(style, inner, t, FirstChild(t));
      ElementEvents(style, decls, t);
      error, list, name, owner := StartElement(t);
      if !error.None? {
        return;
      }
      ghost var started := Report(None, [Start(first.value)]);
      ghost var entered, before, everything := tagStack, bindings, active;
      ghost var between := events;
      error := FinishElement(t, name, owner);
      ReportedMore(old(events), started, between, Closed(content, first.value), error, events);
      if !error.None? {
        return;
      }
      NamesStay(names, entered, tagStack, owners, lo);
      ChainedKept(before, bindings, list, active, lo);
      PopBindings(list, lo);
      PrefixesAre();
      ActiveRecords();
      assert forall i | 0 <= i < lo :: active[i] == everything[i] == old(active)[i];
    }

    /** The content and the end tag; the end of an empty-element tag is reported at once. */
    method FinishElement(t: Tree, name: TagName, ghost owner: nat) returns (error: Error)
      requires Valid() && Readable(t, |prefixes|) && IsNameOf(style, name, t.prefix, t.local)
      requires Lies(bindings, buffers, active, name, owner)
      requires name.str.At? ==>
                 && owner < |decls|
                 && CString(buffers[name.str.i]) == FullName(style, decls[owner].uri, t.prefix, t.local)
      modifies this
      ensures Valid() && |prefixes| == |old(prefixes)|
      ensures var end := if name.str.At? then FullName(style, old(decls)[owner].uri, t.prefix, t.local) else t.local;
              Reported(old(events), Closed(EventsOfAll(style, old(decls), t, FirstChild(t)), end), error, events)
      ensures error.None? ==> Restored()
      decreases t, |t.children| + 2, 0
    {
      hide SameNames;
      hide EventsOfAll;
      hide Valid;
      hide CString;
      ActiveRecords();
      if t.empty {
        NoMoreChildren(style, decls, t, []);
        ThenNothing(EventsOfAll(style, decls, t, |t.children|));
        SameAsItself(tagStack);
        events := events + [End(if name.str.At? then CString(buffers[name.str.i]) else name.localPart)];
        error := None;
      } else {
        ghost var content := EventsOfAll(style, decls, t, 0);
        ghost var end := if name.str.At? then FullName(style, decls[owner].uri, t.prefix, t.local) else t.local;
        PushTag(name, owner);
        error := DoChildren(t);
        if !error.None? {
          ReportedError(old(events), content, Report(None, [End(end)]), error, events);
          return;
        }
        ghost var between := events;
        OuterNames(old(tagStack), name, tagStack);
        var report := CloseTag();
        events := events + [End(report)];
        ReportedMore(old(events), content, between, Report(None, [End(end)]), error, events);
      }
    }

    /** An end tag: the innermost name goes, and is reported once more. */
    method CloseTag() returns (report: string)
      requires Valid() && |tagStack| > 0
      requires var name := tagStack[|tagStack| - 1];
               && name.prefix < |prefixes| && NoNul(name.localPart)
               && IsNameOf(style, name, name.prefix, name.localPart)
      modifies this`tagStack, this`owners, this`buffers
      ensures Valid() && |old(owners)| == |old(tagStack)|
      ensures tagStack == old(tagStack)[..|old(tagStack)| - 1] && owners == old(owners)[..|old(owners)| - 1]
      ensures var name, owner := old(tagStack)[|old(tagStack)| - 1], old(owners)[|old(owners)| - 1];
              && (name.str.At? ==> owner < |decls|)
              && report == if name.str.At? then FullName(style, decls[owner].uri, name.prefix, name.localPart)
                           else name.localPart
    {
      hide Valid;
      ActiveRecords();
      var name;
      ghost var owner;
      name, owner := PopTag();
      report := EndName(name, owner);
    }

    lemma {:induction false} NamesInActive()
      requires Valid()
      ensures NamesBelow(|active|)
    {
      forall i | 0 <= i < |tagStack| && tagStack[i].str.At?
        ensures owners[i] < |active|
      {
        assert Lies(bindings, buffers, active, tagStack[i], owners[i]);
      }
    }

    lemma {:induction false} PrefixesAre()
      requires Valid()
      ensures |active| == |decls| && forall p | 0 <= p < |prefixes| :: prefixes[p] == Current(active, decls, p)
    {
    }

    /** The content of an element. */
    method DoChildren(t: Tree) returns (error: Error)
      requires Valid() && Readable(t, |prefixes|)
      modifies this
      ensures Valid() && |prefixes| == |old(prefixes)|
      ensures Reported(old(events), EventsOfAll(style, old(decls), t, 0), error, events)
      ensures error.None? ==> Restored()
      decreases t, |t.children| + 1
    {
      hide EventsOf;
      hide EventsOfAll;
      hide Then;
      hide SameNames;
      hide Valid;
      ActiveRecords();
      error := None;
      ghost var done: seq<Event> := [];
      var k := 0;
      ThenNothing(EventsOfAll(style, decls, t, 0));
      SameAsItself(tagStack);
      while k < |t.children|
        invariant 0 <= k <= |t.children| && Valid() && |prefixes| == |old(prefixes)| && Restored() && error.None?
        invariant events == old(events) + done
        invariant EventsOfAll(style, decls, t, 0) == Then(Report(None, done), EventsOfAll(style, decls, t, k))
      {
        ghost var child, rest := EventsOf(style, decls, t.children[k]), EventsOfAll(style, decls, t, k + 1);
        ChildEvents(style, decls, t, k);
        ThenStep(done, child, rest);
        ghost var names := tagStack;
        error := DoElement(t.children[k]);
        if !error.None? {
          return;
        }
        NamesAgree(old(tagStack), names, tagStack);
        done := done + child.events;
        k := k + 1;
      }
      NoMoreChildren(style, decls, t, done);
    }
  }

  lemma {:induction false} NewRecord(separator: string, bs: seq<Binding>, buffers: seq<string>, prefixes: seq<Ptr>,
                                     active: seq<nat>, decls: seq<Decl>, free: seq<nat>, freeList: Ptr,
                                     tags: seq<TagName>, owners: seq<nat>, len: nat)
    requires InScope(separator, bs, buffers, prefixes, active, decls) && OwnBuffers(bs, buffers)
    requires Linked(bs, freeList, free) && Distinct(active + free) && forall i | 0 <= i < |bs| :: i in active + free
    requires |owners| == |tags| && forall i | 0 <= i < |tags| :: Lies(bs, buffers, active, tags[i], owners[i])
    ensures var cs := bs + [Binding(0, Null, Null, |buffers|, 0)];
            var cuffers := buffers + [seq(len + EXPAND_SPARE, _ => '\0')];
            && InScope(separator, cs, cuffers, prefixes, active, decls) && OwnBuffers(cs, cuffers)
            && Linked(cs, freeList, free) && Distinct(active + [|bs|] + free)
            && (forall i | 0 <= i < |cs| :: i in active + [|bs|] + free)
            && (forall i | 0 <= i < |tags| :: Lies(cs, cuffers, active, tags[i], owners[i]))
  {
    hide Current;
    hide AllGood;
    var cs, cuffers := bs + [Binding(0, Null, Null, |buffers|, 0)], buffers + [seq(len + EXPAND_SPARE, _ => '\0')];
    assert Kept(bs, buffers, cs, cuffers, active) by {
      forall i | 0 <= i < |active|
        ensures KeptOne(bs[active[i]], buffers, cs[active[i]], cuffers)
      {
        assert Holds(separator, bs, buffers, active, decls, i);
      }
    }
    KeptInScope(separator, bs, buffers, cs, cuffers, prefixes, active, decls);
    LinkedKept(bs, cs, freeList, free);
    InsertedDistinct(active, free, |bs|);
    forall i | 0 <= i < |cs|
      ensures i in active + [|bs|] + free
    {
      assert i < |bs| ==> i in active + free;
    }
    forall i | 0 <= i < |tags|
      ensures Lies(cs, cuffers, active, tags[i], owners[i])
    {
      assert Lies(bs, buffers, active, tags[i], owners[i]);
    }
    assert OwnBuffers(cs, cuffers);
  }

  lemma {:induction false} InsertedDistinct(a: seq<nat>, c: seq<nat>, b: nat)
    requires Distinct(a + c) && b !in a + c
    ensures Distinct(a + [b] + c)
    ensures b in a + [b] + c && forall x | x in a + c :: x in a + [b] + c
  {
    var s, t := a + [b] + c, a + c;
    assert s[|a|] == b;
    forall i, j | 0 <= i < j < |s|
      ensures s[i] != s[j]
    {
      var k, l := if i < |a| then i else i - 1, if j < |a| then j else j - 1;
      assert i != |a| ==> s[i] == t[k] && t[k] in t;
      assert j != |a| ==> s[j] == t[l] && t[l] in t;
    }
    forall x | x in t
      ensures x in s
    {
      var i :| 0 <= i < |t| && t[i] == x;
      assert s[if i < |a| then i else i + 1] == x;
    }
  }

  /** A detached record is neither active nor free. */
  lemma {:induction false} OnNoList(a: seq<nat>, b: nat, c: seq<nat>)
    requires Distinct(a + [b] + c)
    ensures forall i | 0 <= i < |a| :: a[i] != b
    ensures forall i | 0 <= i < |c| :: c[i] != b
    ensures Distinct(a) && Distinct(c)
  {
    var s := a + [b] + c;
    assert s[|a|] == b;
    forall i | 0 <= i < |a|
      ensures a[i] != b
    {
      assert s[i] == a[i];
    }
    forall i | 0 <= i < |c|
      ensures c[i] != b
    {
      assert s[|a| + 1 + i] == c[i];
    }
    forall i, j | 0 <= i < j < |a|
      ensures a[i] != a[j]
    {
      assert s[i] == a[i] && s[j] == a[j];
    }
    forall i, j | 0 <= i < j < |c|
      ensures c[i] != c[j]
    {
      assert s[|a| + 1 + i] == c[i] && s[|a| + 1 + j] == c[j];
    }
  }

  lemma {:induction false} OwnBuffer(bs: seq<Binding>, buffers: seq<string>, b: nat)
    requires OwnBuffers(bs, buffers) && b < |bs|
    ensures forall i | 0 <= i < |bs| && i != b :: bs[i].uri != bs[b].uri
  {
  }

  /** What is kept when the record on no list, and its buffer, are rewritten. */
  lemma {:induction false} ChangedRecord(separator: string, bs: seq<Binding>, buffers: seq<string>, prefixes: seq<Ptr>,
                                         active: seq<nat>, decls: seq<Decl>, free: seq<nat>, freeList: Ptr,
                                         tags: seq<TagName>, owners: seq<nat>, b: nat, record: Binding,
                                         cuffers: seq<string>)
    requires InScope(separator, bs, buffers, prefixes, active, decls) && OwnBuffers(bs, buffers)
    requires Linked(bs, freeList, free) && b < |bs| && Distinct(active + [b] + free)
    requires |owners| == |tags| && forall i | 0 <= i < |tags| :: Lies(bs, buffers, active, tags[i], owners[i])
    requires |buffers| <= |cuffers| && record.uri < |cuffers| && (record.uri == bs[b].uri || record.uri >= |buffers|)
    requires forall i | 0 <= i < |buffers| && i != bs[b].uri :: cuffers[i] == buffers[i]
    ensures var cs := bs[b := record];
            && InScope(separator, cs, cuffers, prefixes, active, decls) && OwnBuffers(cs, cuffers)
            && Linked(cs, freeList, free)
            && (forall i | 0 <= i < |tags| :: Lies(cs, cuffers, active, tags[i], owners[i]))
  {
    hide Current;
    hide AllGood;
    var cs := bs[b := record];
    OnNoList(active, b, free);
    OwnBuffer(bs, buffers, b);
    assert Kept(bs, buffers, cs, cuffers, active) by {
      forall i | 0 <= i < |active|
        ensures KeptOne(bs[active[i]], buffers, cs[active[i]], cuffers)
      {
        assert Holds(separator, bs, buffers, active, decls, i);
      }
    }
    KeptInScope(separator, bs, buffers, cs, cuffers, prefixes, active, decls);
    LinkedKept(bs, cs, freeList, free);
    forall i | 0 <= i < |tags|
      ensures Lies(cs, cuffers, active, tags[i], owners[i])
    {
      assert Lies(bs, buffers, active, tags[i], owners[i]);
    }
    assert OwnBuffers(cs, cuffers);
  }

  /** A filled record becomes the newest active binding. */
  lemma {:induction false} AttachedRecord(separator: string, bs: seq<Binding>, buffers: seq<string>, prefixes: seq<Ptr>,
                                          active: seq<nat>, decls: seq<Decl>, b: nat, d: Decl)
    requires InScope(separator, bs, buffers, prefixes, active, decls)
    requires b < |bs| && d.prefix < |prefixes| && !Refused(d)
    requires bs[b].prefix == d.prefix && bs[b].prev == prefixes[d.prefix]
    requires bs[b].uri < |buffers| && bs[b].uriLen <= |buffers[bs[b].uri]|
    requires buffers[bs[b].uri][..bs[b].uriLen] == d.uri + separator
    ensures InScope(separator, bs, buffers, prefixes[d.prefix := if d.uri == "" then Null else At(b)],
                    active + [b], decls + [d])
  {
    var newActive, newDecls := active + [b], decls + [d];
    var n := |active|;
    assert newActive[..n] == active && newDecls[..n] == decls;
    forall i | 0 <= i < |newActive|
      ensures Holds(separator, bs, buffers, newActive, newDecls, i)
    {
      if i < n {
        assert Holds(separator, bs, buffers, active, decls, i);
        assert newActive[..i] == active[..i] && newDecls[..i] == decls[..i];
      }
    }
  }

  /** A record goes to the head of the free list. */
  lemma {:induction false} PushedFree(bs: seq<Binding>, freeList: Ptr, free: seq<nat>, b: nat)
    requires Linked(bs, freeList, free) && b < |bs| && forall i | 0 <= i < |free| :: free[i] != b
    ensures Linked(bs[b := bs[b].(next := freeList)], At(b), [b] + free)
  {
    var cs := bs[b := bs[b].(next := freeList)];
    LinkedKept(bs, cs, freeList, free);
    forall i | 0 <= i < |free| + 1
      ensures LinkAt(cs, [b] + free, i)
    {
      if i > 0 {
        assert LinkAt(cs, free, i - 1);
      }
    }
  }

  /** The newest binding moves to the free list. */
  lemma {:induction false} PoppedRecord(separator: string, bs: seq<Binding>, buffers: seq<string>, prefixes: seq<Ptr>,
                                        active: seq<nat>, decls: seq<Decl>, free: seq<nat>, freeList: Ptr,
                                        tags: seq<TagName>, owners: seq<nat>)
    requires InScope(separator, bs, buffers, prefixes, active, decls) && OwnBuffers(bs, buffers) && |active| > 0
    requires Linked(bs, freeList, free) && Distinct(active + free) && forall i | 0 <= i < |bs| :: i in active + free
    requires |owners| == |tags| && forall i | 0 <= i < |tags| :: Lies(bs, buffers, active, tags[i], owners[i])
    requires forall i | 0 <= i < |tags| :: tags[i].str.At? ==> owners[i] < |active| - 1
    ensures var n := |active| - 1;
            var b := active[n];
            && b < |bs| && bs[b].prefix < |prefixes|
            && var cs := bs[b := bs[b].(next := freeList)];
            && InScope(separator, cs, buffers, prefixes[bs[b].prefix := bs[b].prev], active[..n], decls[..n])
            && OwnBuffers(cs, buffers) && Linked(cs, At(b), [b] + free) && Distinct(active[..n] + ([b] + free))
            && (forall i | 0 <= i < |cs| :: i in active[..n] + ([b] + free))
            && (forall i | 0 <= i < |tags| :: Lies(cs, buffers, active[..n], tags[i], owners[i]))
            && (forall i | 0 <= i < n :: active[i] != b)
  {
    hide Linked;
    hide Current;
    hide AllGood;
    assert active[|active| - 1] < |bs|;
    var n := |active| - 1;
    var b := active[n];
    var cs := bs[b := bs[b].(next := freeList)];
    assert Holds(separator, bs, buffers, active, decls, n);
    var newPrefixes := prefixes[bs[b].prefix := bs[b].prev];
    assert active + free == active[..n] + [b] + free == active[..n] + ([b] + free);
    OnNoList(active[..n], b, free);
    PoppedScope(separator, bs, buffers, prefixes, active, decls);
    assert Kept(bs, buffers, cs, buffers, active[..n]) by {
      forall i | 0 <= i < n
        ensures KeptOne(bs[active[..n][i]], buffers, cs[active[..n][i]], buffers)
      {
        assert Holds(separator, bs, buffers, active, decls, i);
      }
    }
    KeptInScope(separator, bs, buffers, cs, buffers, newPrefixes, active[..n], decls[..n]);
    PushedFree(bs, freeList, free, b);
    forall i | 0 <= i < |tags|
      ensures Lies(cs, buffers, active[..n], tags[i], owners[i])
    {
      assert Lies(bs, buffers, active, tags[i], owners[i]);
    }
    OwnBuffer(bs, buffers, b);
    assert OwnBuffers(cs, buffers);
  }

  /** The prefixes after the newest binding is gone. */
  lemma {:induction false} PoppedScope(separator: string, bs: seq<Binding>, buffers: seq<string>, prefixes: seq<Ptr>,
                                       active: seq<nat>, decls: seq<Decl>)
    requires InScope(separator, bs, buffers, prefixes, active, decls) && |active| > 0
    ensures var n := |active| - 1;
            var b := bs[active[n]];
            && b.prefix < |prefixes|
            && InScope(separator, bs, buffers, prefixes[b.prefix := b.prev], active[..n], decls[..n])
  {
    var n := |active| - 1;
    assert Holds(separator, bs, buffers, active, decls, n);
    forall i | 0 <= i < n
      ensures Holds(separator, bs, buffers, active[..n], decls[..n], i)
    {
      assert Holds(separator, bs, buffers, active, decls, i);
      assert active[..n][..i] == active[..i] && decls[..n][..i] == decls[..i];
    }
  }

  /** One binding's buffer is replaced by a longer one. */
  lemma {:induction false} MovedBuffer(separator: string, bs: seq<Binding>, buffers: seq<string>, prefixes: seq<Ptr>,
                                       active: seq<nat>, decls: seq<Decl>, free: seq<nat>, freeList: Ptr,
                                       tags: seq<TagName>, owners: seq<nat>, owner: nat, b: Binding, uri: string,
                                       moved: seq<TagName>)
    requires InScope(separator, bs, buffers, prefixes, active, decls) && OwnBuffers(bs, buffers)
    requires Linked(bs, freeList, free) && owner < |active|
    requires |owners| == |tags| == |moved|
    requires forall i | 0 <= i < |tags| :: Lies(bs, buffers, active, tags[i], owners[i])
    requires b == bs[active[owner]]
    requires b.uri < |buffers| && b.uriLen <= |buffers[b.uri]| <= |uri| && uri[..b.uriLen] == buffers[b.uri][..b.uriLen]
    requires forall i | 0 <= i < |tags| ::
               moved[i] == if tags[i].str == At(b.uri) then tags[i].(str := At(|buffers|)) else tags[i]
    ensures var cs, cuffers := bs[active[owner] := b.(uri := |buffers|)], buffers + [uri];
            && InScope(separator, cs, cuffers, prefixes, active, decls) && OwnBuffers(cs, cuffers)
            && Linked(cs, freeList, free)
            && (forall i | 0 <= i < |moved| :: Lies(cs, cuffers, active, moved[i], owners[i]))
  {
    hide Current;
    hide AllGood;
    var cs, cuffers := bs[active[owner] := b.(uri := |buffers|)], buffers + [uri];
    OwnBuffer(bs, buffers, active[owner]);
    assert Kept(bs, buffers, cs, cuffers, active) by {
      forall i | 0 <= i < |active|
        ensures KeptOne(bs[active[i]], buffers, cs[active[i]], cuffers)
      {
        assert Holds(separator, bs, buffers, active, decls, i);
      }
    }
    KeptInScope(separator, bs, buffers, cs, cuffers, prefixes, active, decls);
    LinkedKept(bs, cs, freeList, free);
    forall i | 0 <= i < |tags|
      ensures Lies(cs, cuffers, active, moved[i], owners[i])
    {
      assert Lies(bs, buffers, active, tags[i], owners[i]);
    }
    assert OwnBuffers(cs, cuffers);
  }

  /** A name is written behind the URI of an active binding. */
  lemma {:induction false} WrittenName(separator: string, bs: seq<Binding>, buffers: seq<string>, cuffers: seq<string>,
                                       prefixes: seq<Ptr>, active: seq<nat>, decls: seq<Decl>,
                                       tags: seq<TagName>, owners: seq<nat>, owner: nat, b: Binding, local: string)
    requires InScope(separator, bs, buffers, prefixes, active, decls) && OwnBuffers(bs, buffers) && owner < |active|
    requires NoNul(separator) && NoNul(local) && NoNul(decls[owner].uri)
    requires |owners| == |tags| && forall i | 0 <= i < |tags| :: Lies(bs, buffers, active, tags[i], owners[i])
    requires b == bs[active[owner]]
    requires b.uri < |buffers| == |cuffers| && b.uriLen + |local| + 1 <= |buffers[b.uri]| == |cuffers[b.uri]|
    requires forall k | 0 <= k < |buffers| && k != b.uri :: cuffers[k] == buffers[k]
    requires cuffers[b.uri][..b.uriLen] == buffers[b.uri][..b.uriLen]
    requires cuffers[b.uri][b.uriLen..b.uriLen + |local|] == local && cuffers[b.uri][b.uriLen + |local|] == '\0'
    ensures InScope(separator, bs, cuffers, prefixes, active, decls) && OwnBuffers(bs, cuffers)
    ensures forall i | 0 <= i < |tags| :: Lies(bs, cuffers, active, tags[i], owners[i])
    ensures CString(cuffers[b.uri]) == decls[owner].uri + separator + local
  {
    hide Current;
    hide AllGood;
    hide CString;
    assert Kept(bs, buffers, bs, cuffers, active) by {
      forall i | 0 <= i < |active|
        ensures KeptOne(bs[active[i]], buffers, bs[active[i]], cuffers)
      {
        assert Holds(separator, bs, buffers, active, decls, i);
      }
    }
    KeptInScope(separator, bs, buffers, bs, cuffers, prefixes, active, decls);
    assert Holds(separator, bs, buffers, active, decls, owner);
    var buffer, name := cuffers[b.uri], decls[owner].uri + separator + local;
    assert buffer[..|name|] == buffer[..b.uriLen] + buffer[b.uriLen..b.uriLen + |local|] == name;
    CStringIs(buffer, name);
    forall i | 0 <= i < |tags|
      ensures Lies(bs, cuffers, active, tags[i], owners[i])
    {
      assert Lies(bs, buffers, active, tags[i], owners[i]);
    }
  }

  lemma {:induction false} SameAsItself(a: seq<TagName>)
    ensures SameNames(a, a)
  {
  }

  lemma {:induction false} OneMoreChar(buffer: string, from: nat, to: nat, c: char)
    requires from <= to < |buffer|
    ensures buffer[to := c][from..to + 1] == buffer[from..to] + [c]
    ensures buffer[to := c][..from] == buffer[..from] && buffer[to := c][from..to] == buffer[from..to]
  {
  }

  lemma {:induction false} NamesAgree(a: seq<TagName>, b: seq<TagName>, c: seq<TagName>)
    requires SameNames(a, b) && SameNames(b, c)
    ensures SameNames(a, c)
  {
  }

  /** Without the innermost name. */
  lemma {:induction false} OuterNames(a: seq<TagName>, name: TagName, c: seq<TagName>)
    requires SameNames(a + [name], c)
    ensures |c| == |a| + 1 && SameNames(a, c[..|a|])
    ensures c[|a|] == name.(str := c[|a|].str) && (c[|a|].str.At? <==> name.str.At?)
  {
    assert (a + [name])[|a|] == name;
    assert forall i | 0 <= i < |a| :: (a + [name])[i] == a[i];
  }

  lemma {:induction false} NamesStay(a: seq<TagName>, b: seq<TagName>, c: seq<TagName>, owners: seq<nat>, lo: nat)
    requires SameNames(a, b) && SameNames(b, c) && |owners| == |a|
    requires forall i | 0 <= i < |a| :: a[i].str.At? ==> owners[i] < lo
    ensures SameNames(a, c) && forall i | 0 <= i < |c| :: c[i].str.At? ==> owners[i] < lo
  {
  }

  lemma {:induction false} ChainedKept(bs: seq<Binding>, cs: seq<Binding>, head: Ptr, active: seq<nat>, lo: nat)
    requires (forall i | 0 <= i < |active| :: active[i] < |bs|) && |bs| <= |cs| && Chained(bs, head, active, lo)
    requires forall i | 0 <= i < |active| :: cs[active[i]].next == bs[active[i]].next
    ensures Chained(cs, head, active, lo)
  {
    forall i | lo <= i < |active|
      ensures ChainAt(cs, active, lo, i)
    {
      assert ChainAt(bs, active, lo, i);
    }
  }

  /** One more binding at the head of the list. */
  lemma {:induction false} AddedChain(bs: seq<Binding>, was: seq<nat>, cs: seq<Binding>, active: seq<nat>, lo: nat,
                                      head: Ptr, list: Ptr)
    requires (forall i | 0 <= i < |was| :: was[i] < |bs|) && (forall i | 0 <= i < |active| :: active[i] < |cs|)
    requires lo <= |was| && Chained(bs, head, was, lo) && |bs| <= |cs|
    requires |active| == |was| + 1 && active[..|was|] == was
    requires list == At(active[|was|]) && cs[active[|was|]].next == head
    requires forall i | 0 <= i < |was| :: cs[was[i]].next == bs[was[i]].next
    ensures Chained(cs, list, active, lo)
  {
    assert forall i | 0 <= i < |was| :: active[i] == was[i];
    forall i | lo <= i < |active|
      ensures ChainAt(cs, active, lo, i)
    {
      if i < |was| {
        assert ChainAt(bs, was, lo, i);
      }
    }
  }

  lemma {:induction false} GoodFrom(decls: seq<Decl>, i: nat)
    requires i < |decls|
    ensures AllGood(decls[i..]) <==> !Refused(decls[i]) && AllGood(decls[i + 1..])
    ensures decls[i..] == [decls[i]] + decls[i + 1..]
  {
    var rest, more := decls[i..], decls[i + 1..];
    assert rest[0] == decls[i];
    if AllGood(rest) {
      forall k | 0 <= k < |more|
        ensures !Refused(more[k])
      {
        assert more[k] == rest[k + 1];
      }
    }
    if !Refused(decls[i]) && AllGood(more) {
      forall k | 0 <= k < |rest|
        ensures !Refused(rest[k])
      {
        assert k > 0 ==> rest[k] == more[k - 1];
      }
    }
  }
}
