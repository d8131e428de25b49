/** The context string handed to external entity parsers (getContext and setContext).

    It lists the bindings in scope and the open entities.  Reading it back into a copy of the
    document type restores both. */
module Contexts {

  const SEP: char := '\U{000C}'

  datatype Maybe<T> = Nothing | Just(value: T)

  /** A prefix and the URI it is bound to; an entity and whether it is open. */
  datatype Prefix = Prefix(name: string, uri: Maybe<string>)
  datatype Entity = Entity(name: string, open: bool)

  /** The parts of a document type that a context describes, in the order the tables give them. */
  datatype Dtd = Dtd(defaultUri: Maybe<string>, prefixes: seq<Prefix>, entities: seq<Entity>)

  /** What one part of a context string says; the empty prefix is the default one. */
  datatype Item = Bind(prefix: string, uri: string) | Open(name: string)

  // ----- printing -----

  function Printed(i: Item): string {
    if i.Bind? then i.prefix + "=" + i.uri else i.name
  }

  function PrintedAll(items: seq<Item>): string {
    if |items| == 0 then ""
    else if |items| == 1 then Printed(items[0])
    else PrintedAll(items[..|items| - 1]) + [SEP] + Printed(items[|items| - 1])
  }

  function BoundItems(ps: seq<Prefix>, n: nat): seq<Item>
    requires n <= |ps|
  {
    if n == 0 then []
    else if ps[n - 1].uri.Just? then BoundItems(ps, n - 1) + [Bind(ps[n - 1].name, ps[n - 1].uri.value)]
    else BoundItems(ps, n - 1)
  }

  function OpenItems(es: seq<Entity>, n: nat): seq<Item>
    requires n <= |es|
  {
    if n == 0 then []
    else if es[n - 1].open then OpenItems(es, n - 1) + [Open(es[n - 1].name)]
    else OpenItems(es, n - 1)
  }

  function DefaultItems(d: Dtd): seq<Item> {
    if d.defaultUri.Just? then [Bind("", d.defaultUri.value)] else []
  }

  function Items(d: Dtd): seq<Item> {
    DefaultItems(d) + BoundItems(d.prefixes, |d.prefixes|) + OpenItems(d.entities, |d.entities|)
  }

  lemma {:induction false} PrintedMore(items: seq<Item>, i: Item)
    ensures PrintedAll(items + [i]) == if |items| == 0 then Printed(i) else PrintedAll(items) + [SEP] + Printed(i)
    ensures |items| == 0 ==> PrintedAll(items) == ""
  {
    assert (items + [i])[..|items|] == items;
  }

  // ----- reading -----

  function FirstOf(text: string, stops: string): (k: nat)
    ensures k <= |text|
    ensures forall i | 0 <= i < k :: text[i] !in stops
    ensures k < |text| ==> text[k] in stops
  {
    if |text| == 0 || text[0] in stops then 0 else 1 + FirstOf(text[1..], stops)
  }

  function AfterSep(text: string, k: nat): string
    requires k <= |text|
  {
    if k < |text| then text[k + 1..] else []
  }

  function Read(text: string): seq<Item>
    decreases |text|
  {
    if |text| == 0 then []
    else
      var k := FirstOf(text, [SEP, '=']);
      if k < |text| && text[k] == '=' then
        var rest := text[k + 1..];
        var j := FirstOf(rest, [SEP]);
        [Bind(text[..k], rest[..j])] + Read(AfterSep(rest, j))
      else
        [Open(text[..k])] + Read(AfterSep(text, k))
  }

  predicate GoodName(s: string) {
    |s| > 0 && '\U{000C}' !in s && '=' !in s
  }

  predicate GoodItem(i: Item) {
    if i.Bind? then (i.prefix == "" || GoodName(i.prefix)) && '\U{000C}' !in i.uri && i.uri != "" else GoodName(i.name)
  }

  lemma {:induction false} FirstOfIs(before: string, stops: string, rest: string)
    requires forall i | 0 <= i < |before| :: before[i] !in stops
    requires |rest| > 0 ==> rest[0] in stops
    ensures FirstOf(before + rest, stops) == |before|
    decreases |before|
  {
    if |before| == 0 {
      assert before + rest == rest;
    } else {
      assert (before + rest)[1..] == before[1..] + rest;
      FirstOfIs(before[1..], stops, rest);
    }
  }

  /** Nothing, or a separator and more. */
  predicate IsTail(tail: string) {
    |tail| > 0 ==> tail[0] == SEP
  }

  lemma {:induction false} ReadBind(prefix: string, uri: string, tail: string)
    requires IsTail(tail) && SEP !in prefix && '=' !in prefix && SEP !in uri
    ensures Read(prefix + "=" + uri + tail) == [Bind(prefix, uri)] + Read(AfterSep(tail, 0))
  {
    hide FirstOf;
    var text := prefix + "=" + uri + tail;
    var behind := "=" + uri + tail;
    assert text == prefix + behind;
    FirstOfIs(prefix, [SEP, '='], behind);
    assert text[|prefix|] == behind[0];
    var rest := text[|prefix| + 1..];
    assert rest == uri + tail;
    FirstOfIs(uri, [SEP], tail);
    assert AfterSep(rest, |uri|) == AfterSep(tail, 0);
    assert text[..|prefix|] == prefix && rest[..|uri|] == uri;
  }

  lemma {:induction false} ReadUnnamed(name: string, tail: string)
    requires IsTail(tail) && SEP !in name && '=' !in name && name + tail != ""
    ensures Read(name + tail) == [Open(name)] + Read(AfterSep(tail, 0))
  {
    hide FirstOf;
    var text := name + tail;
    FirstOfIs(name, [SEP, '='], tail);
    assert |tail| > 0 ==> text[|name|] == tail[0];
    assert AfterSep(text, |name|) == AfterSep(tail, 0);
    assert text[..|name|] == name;
  }

  /** Reading one printed item and the separator behind it. */
  lemma {:induction false} ReadFirst(i: Item, rest: string)
    requires GoodItem(i)
    ensures Read(Printed(i)) == [i]
    ensures Read(Printed(i) + [SEP] + rest) == [i] + Read(rest)
  {
    hide Read;
    var tail := [SEP] + rest;
    assert AfterSep(tail, 0) == rest && AfterSep("", 0) == "";
    assert Printed(i) + "" == Printed(i) && Printed(i) + [SEP] + rest == Printed(i) + tail;
    ReadNothing();
    if i.Bind? {
      ReadBind(i.prefix, i.uri, "");
      ReadBind(i.prefix, i.uri, tail);
    } else {
      ReadUnnamed(i.name, "");
      ReadUnnamed(i.name, tail);
    }
  }

  lemma {:induction false} BehindSep(text: string, k: nat)
    requires k <= |text|
    ensures AfterSep(text[k..], 0) == if k < |text| then text[k + 1..] else text[k..]
  {
  }

  lemma {:induction false} ReadNothing()
    ensures Read("") == []
  {
  }

  /** The same text, from the first item on. */
  lemma {:induction false} PrintedFirst(items: seq<Item>)
    requires |items| > 1
    ensures PrintedAll(items) == Printed(items[0]) + [SEP] + PrintedAll(items[1..])
    decreases |items|
  {
    var init, last := items[..|items| - 1], items[|items| - 1];
    if |items| == 2 {
      assert init == [items[0]] && items[1..] == [last];
    } else {
      PrintedFirst(init);
      assert items[1..][..|items| - 2] == init[1..];
    }
  }

  /** Reading is the inverse of printing. */
  lemma {:induction false} ReadPrinted(items: seq<Item>)
    requires forall i | 0 <= i < |items| :: GoodItem(items[i])
    ensures Read(PrintedAll(items)) == items
    decreases |items|
  {
    if |items| == 1 {
      ReadFirst(items[0], "");
    } else if |items| > 1 {
      PrintedFirst(items);
      ReadPrinted(items[1..]);
      ReadFirst(items[0], PrintedAll(items[1..]));
    }
  }

  // ----- what the items do -----

  function PrefixIndex(ps: seq<Prefix>, name: string): (k: nat)
    ensures k <= |ps| && (k < |ps| ==> ps[k].name == name) && forall i | 0 <= i < k :: ps[i].name != name
  {
    if |ps| == 0 || ps[0].name == name then 0 else 1 + PrefixIndex(ps[1..], name)
  }

  function EntityIndex(es: seq<Entity>, name: string): (k: nat)
    ensures k <= |es| && (k < |es| ==> es[k].name == name) && forall i | 0 <= i < k :: es[i].name != name
  {
    if |es| == 0 || es[0].name == name then 0 else 1 + EntityIndex(es[1..], name)
  }

  /** A binding goes to its prefix, which is created if need be; an entity is opened if it exists. */
  function Applied(d: Dtd, i: Item): Dtd {
    if i.Open? then
      var k := EntityIndex(d.entities, i.name);
      if k < |d.entities| then d.(entities := d.entities[k := Entity(i.name, true)]) else d
    else if i.prefix == "" then
      d.(defaultUri := if i.uri == "" then Nothing else Just(i.uri))
    else
      var k := PrefixIndex(d.prefixes, i.prefix);
      var p := Prefix(i.prefix, Just(i.uri));
      if k < |d.prefixes| then d.(prefixes := d.prefixes[k := p]) else d.(prefixes := d.prefixes + [p])
  }

  function AppliedAll(d: Dtd, items: seq<Item>): Dtd
    decreases |items|
  {
    if |items| == 0 then d else AppliedAll(Applied(d, items[0]), items[1..])
  }

  lemma {:induction false} AppliedMore(d: Dtd, a: seq<Item>, b: seq<Item>)
    ensures AppliedAll(d, a + b) == AppliedAll(AppliedAll(d, a), b)
    decreases |a|
  {
    if |a| == 0 {
      assert a + b == b;
    } else {
      assert (a + b)[0] == a[0] && (a + b)[1..] == a[1..] + b;
      AppliedMore(Applied(d, a[0]), a[1..], b);
    }
  }

  /** Names are distinct and free of the two special characters; URIs are free of the separator. */
  predicate GoodDtd(d: Dtd) {
    && (forall i | 0 <= i < |d.prefixes| :: GoodName(d.prefixes[i].name) && GoodUri(d.prefixes[i].uri))
    && (forall i | 0 <= i < |d.entities| :: GoodName(d.entities[i].name))
    && (forall i, j | 0 <= i < j < |d.prefixes| :: d.prefixes[i].name != d.prefixes[j].name)
    && (forall i, j | 0 <= i < j < |d.entities| :: d.entities[i].name != d.entities[j].name)
    && GoodUri(d.defaultUri)
  }

  predicate GoodUri(u: Maybe<string>) {
    u.Just? ==> u.value != "" && '\U{000C}' !in u.value
  }

  /** A copy of the document type, as a new parser has it: nothing bound, nothing open. */
  function Cleared(d: Dtd): Dtd {
    Dtd(Nothing, seq(|d.prefixes|, i requires 0 <= i < |d.prefixes| => d.prefixes[i].(uri := Nothing)),
        seq(|d.entities|, i requires 0 <= i < |d.entities| => d.entities[i].(open := false)))
  }

  /** The first n of one table, the rest of the other. */
  function Mixed<T>(a: seq<T>, b: seq<T>, n: nat): seq<T>
    requires n <= |a| == |b|
  {
    a[..n] + b[n..]
  }

  lemma {:induction false} BindsNext(d: Dtd, c: Dtd, n: nat)
    requires GoodDtd(d) && n < |d.prefixes| && |c.prefixes| == |d.prefixes|
    requires forall i | 0 <= i < |d.prefixes| :: c.prefixes[i].name == d.prefixes[i].name
    requires d.prefixes[n].uri.Just?
    ensures Applied(c.(prefixes := Mixed(d.prefixes, c.prefixes, n)),
                    Bind(d.prefixes[n].name, d.prefixes[n].uri.value)) ==
            c.(prefixes := Mixed(d.prefixes, c.prefixes, n + 1))
  {
    assert GoodName(d.prefixes[n].name) && d.prefixes[n].name != "";
    hide GoodName;
    hide GoodUri;
    var before, p := Mixed(d.prefixes, c.prefixes, n), d.prefixes[n];
    assert forall i | 0 <= i < |before| :: before[i].name == d.prefixes[i].name;
    assert PrefixIndex(before, p.name) == n;
    assert before[n := p] == Mixed(d.prefixes, c.prefixes, n + 1);
  }

  lemma {:induction false} BoundRestores(d: Dtd, c: Dtd, n: nat)
    requires GoodDtd(d) && n <= |d.prefixes| && c.prefixes == Cleared(d).prefixes
    ensures AppliedAll(c, BoundItems(d.prefixes, n)) == c.(prefixes := Mixed(d.prefixes, c.prefixes, n))
    decreases n
  {
    hide Applied;
    hide GoodName;
    hide GoodUri;
    if n > 0 {
      BoundRestores(d, c, n - 1);
      var p, items := d.prefixes[n - 1], BoundItems(d.prefixes, n - 1);
      if p.uri.Just? {
        var i := Bind(p.name, p.uri.value);
        AppliedMore(c, items, [i]);
        AppliedOne(AppliedAll(c, items), i);
        BindsNext(d, c, n - 1);
      } else {
        assert Mixed(d.prefixes, c.prefixes, n - 1) == Mixed(d.prefixes, c.prefixes, n);
      }
    } else {
      assert Mixed(d.prefixes, c.prefixes, 0) == c.prefixes;
    }
  }

  lemma {:induction false} OpensNext(d: Dtd, c: Dtd, n: nat)
    requires GoodDtd(d) && n < |d.entities| && |c.entities| == |d.entities|
    requires forall i | 0 <= i < |d.entities| :: c.entities[i].name == d.entities[i].name
    requires d.entities[n].open
    ensures Applied(c.(entities := Mixed(d.entities, c.entities, n)), Open(d.entities[n].name)) ==
            c.(entities := Mixed(d.entities, c.entities, n + 1))
  {
    var before, e := Mixed(d.entities, c.entities, n), d.entities[n];
    assert forall i | 0 <= i < |before| :: before[i].name == d.entities[i].name;
    assert EntityIndex(before, e.name) == n;
    assert before[n := e] == Mixed(d.entities, c.entities, n + 1);
  }

  lemma {:induction false} OpenRestores(d: Dtd, c: Dtd, n: nat)
    requires GoodDtd(d) && n <= |d.entities| && c.entities == Cleared(d).entities
    ensures AppliedAll(c, OpenItems(d.entities, n)) == c.(entities := Mixed(d.entities, c.entities, n))
    decreases n
  {
    hide Applied;
    hide GoodDtd;
    if n > 0 {
      OpenRestores(d, c, n - 1);
      var e, items := d.entities[n - 1], OpenItems(d.entities, n - 1);
      if e.open {
        AppliedMore(c, items, [Open(e.name)]);
        AppliedOne(AppliedAll(c, items), Open(e.name));
        OpensNext(d, c, n - 1);
      } else {
        assert Mixed(d.entities, c.entities, n - 1) == Mixed(d.entities, c.entities, n);
      }
    } else {
      assert Mixed(d.entities, c.entities, 0) == c.entities;
    }
  }

  lemma {:induction false} AppliedOne(d: Dtd, i: Item)
    ensures AppliedAll(d, [i]) == Applied(d, i)
  {
    assert [i][1..] == [];
  }

  /** All items of a document type, applied to a cleared copy of it, give it back. */
  lemma {:induction false} ItemsRestore(d: Dtd)
    requires GoodDtd(d)
    ensures AppliedAll(Cleared(d), Items(d)) == d
  {
    var c := Cleared(d);
    var bound, open := BoundItems(d.prefixes, |d.prefixes|), OpenItems(d.entities, |d.entities|);
    var c1 := c.(defaultUri := d.defaultUri);
    assert AppliedAll(c, DefaultItems(d)) == c1 by {
      if d.defaultUri.Just? {
        assert AppliedAll(Applied(c, DefaultItems(d)[0]), []) == Applied(c, DefaultItems(d)[0]);
      }
    }
    AppliedMore(c, DefaultItems(d) + bound, open);
    AppliedMore(c, DefaultItems(d), bound);
    BoundRestores(d, c1, |d.prefixes|);
    var c2 := c1.(prefixes := d.prefixes);
    assert Mixed(d.prefixes, c1.prefixes, |d.prefixes|) == d.prefixes;
    OpenRestores(d, c2, |d.entities|);
    assert Mixed(d.entities, c2.entities, |d.entities|) == d.entities;
  }

  lemma {:induction false} ItemsAreGood(d: Dtd)
    requires GoodDtd(d)
    ensures forall i | 0 <= i < |Items(d)| :: GoodItem(Items(d)[i])
  {
    BoundAreGood(d, |d.prefixes|);
    OpenAreGood(d, |d.entities|);
  }

  lemma {:induction false} BoundAreGood(d: Dtd, n: nat)
    requires GoodDtd(d) && n <= |d.prefixes|
    ensures forall i | i in BoundItems(d.prefixes, n) :: GoodItem(i)
    decreases n
  {
    if n > 0 {
      BoundAreGood(d, n - 1);
    }
  }

  lemma {:induction false} OpenAreGood(d: Dtd, n: nat)
    requires GoodDtd(d) && n <= |d.entities|
    ensures forall i | i in OpenItems(d.entities, n) :: GoodItem(i)
    decreases n
  {
    if n > 0 {
      OpenAreGood(d, n - 1);
    }
  }

  /** setContext undoes getContext: the printed context, read into a cleared copy, restores it. */
  lemma {:induction false} ContextRoundTrip(d: Dtd)
    requires GoodDtd(d)
    ensures AppliedAll(Cleared(d), Read(PrintedAll(Items(d)))) == d
  {
    ItemsAreGood(d);
    ReadPrinted(Items(d));
    ItemsRestore(d);
  }

  /** addBinding refuses the empty URI for a named prefix. */
  predicate Bindable(i: Item) {
    i.Bind? && i.prefix != "" ==> i.uri != ""
  }

  // ----- the routines -----

  class Parser {
    /** What a binding keeps behind its URI: nothing, or the character between URI and local part. */
    const separator: string
    var dtd: Dtd

    constructor (dtd: Dtd, namespaceSeparator: char)
      ensures this.dtd == dtd && |separator| == if namespaceSeparator == '\0' then 0 else 1
    {
      this.dtd := dtd;
      separator := if namespaceSeparator == '\0' then "" else [namespaceSeparator];
    }

    /** The buffer of a binding, as addBinding has filled it. */
    function BufferOf(uri: string): string {
      uri + separator
    }

    /** The URI of a binding without the separator behind it, character by character. */
    method AppendUri(context: string, buffer: string) returns (longer: string)
      requires |separator| <= 1 && |separator| <= |buffer|
      ensures longer == context + buffer[..|buffer| - |separator|]
    {
      var len := |buffer|;
      if separator != "" {
        len := len - 1;
      }
      longer := context;
      var i := 0;
      while i < len
        invariant 0 <= i <= len && longer == context + buffer[..i]
      {
        longer := longer + [buffer[i]];
        i := i + 1;
      }
    }

    /** getContext: the bindings, then the open entities, with separators between them. */
    method GetContext() returns (context: string)
      requires |separator| <= 1
      ensures context == PrintedAll(Items(dtd))
    {
      hide PrintedAll;
      NothingPrinted();
      context := "";
      if dtd.defaultUri.Just? {
        PrintedMore([], Bind("", dtd.defaultUri.value));
        assert [] + DefaultItems(dtd) == DefaultItems(dtd);
        var buffer := BufferOf(dtd.defaultUri.value);
        context := AppendUri("=", buffer);
        assert buffer[..|buffer| - |separator|] == dtd.defaultUri.value;
        assert context == "" + "=" + dtd.defaultUri.value;
      }
      var needSep := dtd.defaultUri.Just?;
      context, needSep := AddBindings(context, needSep, DefaultItems(dtd));
      context := AddEntities(context, needSep, DefaultItems(dtd) + BoundItems(dtd.prefixes, |dtd.prefixes|));
    }

    /** The loop over the prefixes. */
    method AddBindings(context: string, needSep: bool, ghost items: seq<Item>) returns (longer: string, sep: bool)
      requires |separator| <= 1 && context == PrintedAll(items) && (needSep <==> items != [])
      ensures longer == PrintedAll(items + BoundItems(dtd.prefixes, |dtd.prefixes|))
      ensures sep <==> items + BoundItems(dtd.prefixes, |dtd.prefixes|) != []
    {
      hide PrintedAll;
      longer, sep := context, needSep;
      ghost var done := items;
      var i := 0;
      while i < |dtd.prefixes|
        invariant i <= |dtd.prefixes| && done == items + BoundItems(dtd.prefixes, i)
        invariant longer == PrintedAll(done) && (sep <==> done != [])
      {
        var p := dtd.prefixes[i];
        if p.uri.Just? {
          PrintedMore(done, Bind(p.name, p.uri.value));
          longer := AppendBinding(longer, sep, p.name, p.uri.value, BufferOf(p.uri.value));
          done := done + [Bind(p.name, p.uri.value)];
          sep := true;
        }
        i := i + 1;
      }
    }

    /** One binding, read from its buffer. */
    method AppendBinding(context: string, needSep: bool, name: string, ghost uri: string, buffer: string)
      returns (longer: string)
      requires |separator| <= 1 && buffer == BufferOf(uri)
      ensures longer == (if needSep then context + [SEP] else context) + Printed(Bind(name, uri))
    {
      longer := context;
      if needSep {
        longer := longer + [SEP];
      }
      ghost var before := longer;
      longer := AppendUri(longer + name + "=", buffer);
      assert buffer[..|buffer| - |separator|] == uri;
      assert longer == before + (name + "=" + uri);
    }

    /** The loop over the general entities. */
    method AddEntities(context: string, needSep: bool, ghost items: seq<Item>) returns (longer: string)
      requires context == PrintedAll(items) && (needSep <==> items != [])
      ensures longer == PrintedAll(items + OpenItems(dtd.entities, |dtd.entities|))
    {
      hide PrintedAll;
      longer := context;
      var sep := needSep;
      ghost var done := items;
      var i := 0;
      while i < |dtd.entities|
        invariant i <= |dtd.entities| && done == items + OpenItems(dtd.entities, i)
        invariant longer == PrintedAll(done) && (sep <==> done != [])
      {
        var e := dtd.entities[i];
        if e.open {
          PrintedMore(done, Open(e.name));
          longer := (if sep then longer + [SEP] else longer) + e.name;
          assert longer == PrintedAll(done + [Open(e.name)]);
          done := done + [Open(e.name)];
          sep := true;
        }
        i := i + 1;
      }
    }

    /**
     * setContext: reads a context string into the document type.  A named prefix with an empty URI
     * makes it fail; the items before it have been applied.
     */
    method SetContext(text: string) returns (ok: bool)
      modifies this
      ensures ok == forall i | i in Read(text) :: Bindable(i)
      ensures ok ==> dtd == AppliedAll(old(dtd), Read(text))
    {
      hide Applied;
      hide Read;
      ghost var done: seq<Item> := [];
      var context := 0;
      assert text[0..] == text;
      while context < |text|
        invariant context <= |text| && Read(text) == done + Read(text[context..])
        invariant dtd == AppliedAll(old(dtd), done)
        invariant forall i | i in done :: Bindable(i)
        decreases |text| - context
      {
        var next, item := NextItem(text, context);
        assert Read(text) == done + [item] + Read(text[next..]);
        if !Bindable(item) {
          assert (done + [item] + Read(text[next..]))[|done|] == item;
          return false;
        }
        if item.Bind? {
          BindPrefix(item.prefix, item.uri);
        } else {
          OpenEntity(item.name);
        }
        AppliedMore(old(dtd), done, [item]);
        AppliedOne(AppliedAll(old(dtd), done), item);
        done := done + [item];
        context := next;
      }
      ReadNothing();
      assert text[context..] == "" && done + [] == done;
      return true;
    }

    /** One item and the separator behind it. */
    static method NextItem(text: string, context: nat) returns (next: nat, item: Item)
      requires context < |text|
      ensures context < next <= |text| && Read(text[context..]) == [item] + Read(text[next..])
    {
      hide Read;
      hide FirstOf;
      ghost var here := text[context..];
      var s := context;
      while s < |text| && text[s] != SEP && text[s] != '='
        invariant context <= s <= |text|
        invariant forall k | context <= k < s :: text[k] != SEP && text[k] != '='
      {
        s := s + 1;
      }
      var name := text[context..s];
      if s < |text| && text[s] == '=' {
        next := s + 1;
        while next < |text| && text[next] != SEP
          invariant s + 1 <= next <= |text|
          invariant forall k | s + 1 <= k < next :: text[k] != SEP
        {
          next := next + 1;
        }
        item := Bind(name, text[s + 1..next]);
        ReadBind(name, text[s + 1..next], text[next..]);
        assert here == name + "=" + text[s + 1..next] + text[next..];
      } else {
        item := Open(name);
        next := s;
        ReadUnnamed(name, text[next..]);
        assert here == name + text[next..];
      }
      BehindSep(text, next);
      if next < |text| {
        next := next + 1;
      }
    }

    /** lookup with creation, and addBinding. */
    method BindPrefix(name: string, uri: string)
      requires name == "" || uri != ""
      modifies this
      ensures dtd == Applied(old(dtd), Bind(name, uri))
    {
      if name == "" {
        dtd := dtd.(defaultUri := if uri == "" then Nothing else Just(uri));
      } else {
        var k := PrefixIndex(dtd.prefixes, name);
        if k == |dtd.prefixes| {
          dtd := dtd.(prefixes := dtd.prefixes + [Prefix(name, Just(uri))]);
        } else {
          dtd := dtd.(prefixes := dtd.prefixes[k := Prefix(name, Just(uri))]);
        }
      }
    }

    method OpenEntity(name: string)
      modifies this
      ensures dtd == Applied(old(dtd), Open(name))
    {
      var k := EntityIndex(dtd.entities, name);
      if k < |dtd.entities| {
        dtd := dtd.(entities := dtd.entities[k := Entity(name, true)]);
      }
    }
  }

  lemma {:induction false} NothingPrinted()
    ensures PrintedAll([]) == ""
  {
  }
}
