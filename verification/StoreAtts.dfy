/** The attribute list of a start tag (xmlparse.c, storeAtts), laid over the array it is read from.

    The scanner leaves an array of four-word records.  The list for the application, two words an
    attribute, is written over the same words while they are read.  A flag byte per attribute name
    finds duplicates and tells which defaults apply, and must be clear again afterwards. */
module AttributeLists {
  import N = NsAttributes
  import Probing
  import S = Scopes

  datatype Maybe<T> = Nothing | Just(value: T)

  datatype Kind = Plain | Prefixed | Declaration

  datatype Error = None | DuplicateAttribute | BadValue | BadDeclaration | UnboundPrefix

  /** The four words of an attribute as the scanner leaves them. */
  datatype Record = Record(name: nat, valuePtr: nat, valueEnd: nat, normalized: nat)

  /** A declared attribute of the element type, with its default value if it has one. */
  datatype Default = Default(id: nat, value: Maybe<nat>)

  /**
   * The tables storeAtts consults: the attribute a name stands for, its kind, the prefix it has or
   * declares, its local part, where a value is stored if it can be, and what is stored there.
   * Attributes are numbered below `ids`.
   */
  datatype Tables = Tables(ids: nat, idOf: nat -> nat, kindOf: nat -> Kind, prefixOf: nat -> nat, localOf: nat -> string,
                           value: Record -> Maybe<nat>, text: nat -> string, style: S.Style)

  ghost predicate GoodTables(t: Tables) {
    forall name :: t.idOf(name) < t.ids
  }

  function RecordAt(words: seq<nat>, i: nat): Record
    requires 4 * i + 4 <= |words|
  {
    Record(words[4 * i], words[4 * i + 1], words[4 * i + 2], words[4 * i + 3])
  }

  function Records(words: seq<nat>, n: nat): (rs: seq<Record>)
    requires 4 * n <= |words|
    ensures |rs| == n && forall i | 0 <= i < n :: rs[i] == RecordAt(words, i)
  {
    seq(n, i requires 0 <= i < n => RecordAt(words, i))
  }

  function IdsOf(t: Tables, rs: seq<Record>): seq<nat> {
    seq<nat>(|rs|, i requires 0 <= i < |rs| => t.idOf(rs[i].name))
  }

  predicate Distinct(s: seq<nat>) {
    forall i, j | 0 <= i < j < |s| :: s[i] != s[j]
  }

  /** The specified attributes that are no namespace declarations: name and value, in order. */
  function Listed(t: Tables, rs: seq<Record>): (ws: seq<nat>)
    ensures |ws| % 2 == 0 && |ws| <= 2 * |rs|
  {
    if |rs| == 0 then []
    else
      var r := rs[|rs| - 1];
      var before := Listed(t, rs[..|rs| - 1]);
      if t.kindOf(t.idOf(r.name)).Declaration? then before else before + [t.idOf(r.name), StoredWord(t, r)]
  }

  function StoredWord(t: Tables, r: Record): nat {
    if t.value(r).Just? then t.value(r).value else 0
  }

  /** The declaration a value makes of the prefix of an attribute. */
  function DeclarationOf(t: Tables, id: nat, value: nat): S.Decl {
    S.Decl(t.prefixOf(id), t.text(value))
  }

  /** The namespace declarations among the specified attributes. */
  function Declared(t: Tables, rs: seq<Record>): seq<S.Decl> {
    if |rs| == 0 then []
    else
      var r := rs[|rs| - 1];
      var before := Declared(t, rs[..|rs| - 1]);
      if !t.kindOf(t.idOf(r.name)).Declaration? then before
      else before + [DeclarationOf(t, t.idOf(r.name), StoredWord(t, r))]
  }

  /** What is wrong with an attribute behind those with the names `ids`. */
  function RecordError(t: Tables, ids: seq<nat>, r: Record): Error {
    var id := t.idOf(r.name);
    if id in ids then DuplicateAttribute
    else if t.value(r).Nothing? then BadValue
    else if t.kindOf(id).Declaration? && S.Refused(DeclarationOf(t, id, t.value(r).value)) then BadDeclaration
    else None
  }

  /** The first error among the specified attributes. */
  function SpecifiedError(t: Tables, rs: seq<Record>): Error {
    if |rs| == 0 then None
    else
      var before, e := rs[..|rs| - 1], SpecifiedError(t, rs[..|rs| - 1]);
      if !e.None? then e else RecordError(t, IdsOf(t, before), rs[|rs| - 1])
  }

  /** A default applies if it has a value and its attribute was not specified. */
  predicate Applies(d: Default, specified: seq<nat>) {
    d.id !in specified && d.value.Just?
  }

  /** The defaults that apply and are no namespace declarations. */
  function Defaulted(t: Tables, ds: seq<Default>, specified: seq<nat>): (ws: seq<nat>)
    ensures |ws| % 2 == 0 && |ws| <= 2 * |ds|
  {
    if |ds| == 0 then []
    else
      var d := ds[|ds| - 1];
      var before := Defaulted(t, ds[..|ds| - 1], specified);
      if Applies(d, specified) && !t.kindOf(d.id).Declaration? then before + [d.id, d.value.value] else before
  }

  /** The declarations that defaults make. */
  function DefaultDeclared(t: Tables, ds: seq<Default>, specified: seq<nat>): seq<S.Decl> {
    if |ds| == 0 then []
    else
      var d := ds[|ds| - 1];
      var before := DefaultDeclared(t, ds[..|ds| - 1], specified);
      if Applies(d, specified) && t.kindOf(d.id).Declaration? then before + [DeclarationOf(t, d.id, d.value.value)]
      else before
  }

  /** The names of a list: every second word. */
  function NamesIn(ws: seq<nat>): seq<nat> {
    if |ws| < 2 then [] else NamesIn(ws[..|ws| - 2]) + [ws[|ws| - 2]]
  }

  predicate IsPrefixed(t: Tables, w: nat) {
    w < t.ids && t.kindOf(w).Prefixed?
  }

  /** The expanded name of a prefixed attribute, if its prefix is bound. */
  function NameOf(t: Tables, decls: seq<S.Decl>, id: nat): Maybe<string> {
    var uri := S.Innermost(decls, t.prefixOf(id));
    if uri.Just? then Just(uri.value + t.style.separator + t.localOf(id)) else Nothing
  }

  /** The expanded name as it is stored; a zero inside hides the prefix when there is no separator. */
  function StoredForm(t: Tables, id: nat, name: string): string {
    if t.style.triplets then name + [S.Mark(t.style)] + t.style.prefixName(t.prefixOf(id)) else name
  }

  /** A string in the pool, and the byte in front of it. */
  datatype PoolString = PoolString(front: nat, text: string)

  /** Word k of a list whose prefixed names have been expanded into the pool. */
  predicate IsExpandedWord(t: Tables, decls: seq<S.Decl>, list: seq<nat>, x: nat, pool: seq<PoolString>, k: nat)
    requires k < |list|
  {
    if k % 2 == 0 && IsPrefixed(t, list[k]) then
      && NameOf(t, decls, list[k]).Just? && t.ids <= x < t.ids + |pool|
      && pool[x - t.ids].text == StoredForm(t, list[k], NameOf(t, decls, list[k]).value)
    else
      x == list[k]
  }

  predicate IsExpanded(t: Tables, decls: seq<S.Decl>, list: seq<nat>, xs: seq<nat>, pool: seq<PoolString>) {
    |xs| == |list| && forall k | 0 <= k < |list| :: IsExpandedWord(t, decls, list, xs[k], pool, k)
  }

  /** The prefixed names of a list, in order. */
  function PrefixedIn(t: Tables, ws: seq<nat>): seq<nat> {
    if |ws| < 2 then []
    else
      var before, w := PrefixedIn(t, ws[..|ws| - 2]), ws[|ws| - 2];
      if IsPrefixed(t, w) then before + [w] else before
  }

  /** The names up to the first whose prefix is not bound. */
  function BoundPart(t: Tables, decls: seq<S.Decl>, ids: seq<nat>): (bound: seq<nat>)
    ensures bound <= ids && forall k | 0 <= k < |bound| :: NameOf(t, decls, bound[k]).Just?
    ensures |bound| < |ids| ==> NameOf(t, decls, ids[|bound|]).Nothing?
  {
    if |ids| == 0 || NameOf(t, decls, ids[0]).Nothing? then [] else [ids[0]] + BoundPart(t, decls, ids[1..])
  }

  function NamesOf(t: Tables, decls: seq<S.Decl>, bound: seq<nat>): (names: seq<string>)
    requires forall k | 0 <= k < |bound| :: NameOf(t, decls, bound[k]).Just?
    ensures |names| == |bound|
  {
    seq(|bound|, k requires 0 <= k < |bound| => NameOf(t, decls, bound[k]).value)
  }

  function FormsOf(t: Tables, decls: seq<S.Decl>, bound: seq<nat>): (forms: seq<string>)
    requires forall k | 0 <= k < |bound| :: NameOf(t, decls, bound[k]).Just?
    ensures |forms| == |bound|
  {
    seq(|bound|, k requires 0 <= k < |bound| => StoredForm(t, bound[k], NameOf(t, decls, bound[k]).value))
  }

  /** What is wrong with the expanded names: the first clash in front of the first unbound prefix. */
  function ExpandError(t: Tables, hash: string -> nat, decls: seq<S.Decl>, ids: seq<nat>): Error {
    var bound := BoundPart(t, decls, ids);
    if N.FirstClash(hash, NamesOf(t, decls, bound), FormsOf(t, decls, bound), 0) != -1 then DuplicateAttribute
    else if |bound| < |ids| then UnboundPrefix
    else None
  }

  /** The error of storeAtts, with the declarations `decls` of the elements around this one. */
  function StoreError(t: Tables, hash: string -> nat, decls: seq<S.Decl>, rs: seq<Record>, ds: seq<Default>): Error {
    if !SpecifiedError(t, rs).None? then SpecifiedError(t, rs)
    else if !S.AllGood(DefaultDeclared(t, ds, IdsOf(t, rs))) then BadDeclaration
    else ExpandError(t, hash, InForce(t, decls, rs, ds), PrefixedIn(t, WholeList(t, rs, ds)))
  }

  /** The declarations in force for the names of this element. */
  function InForce(t: Tables, decls: seq<S.Decl>, rs: seq<Record>, ds: seq<Default>): seq<S.Decl> {
    decls + Declared(t, rs) + DefaultDeclared(t, ds, IdsOf(t, rs))
  }

  /** The list before its names are expanded. */
  function WholeList(t: Tables, rs: seq<Record>, ds: seq<Default>): seq<nat> {
    Listed(t, rs) + Defaulted(t, ds, IdsOf(t, rs))
  }

  /** The prefixed names among the names from word `i` on. */
  function Prefixes(t: Tables, ws: seq<nat>, i: nat): nat
    decreases |ws| - i
  {
    if i + 2 > |ws| then 0 else (if IsPrefixed(t, ws[i]) then 1 else 0) + Prefixes(t, ws, i + 2)
  }

  predicate AllClear(flags: seq<nat>) {
    forall i | 0 <= i < |flags| :: flags[i] == 0
  }

  /** The flags say which attributes have been met: 2 for prefixed names, 1 for the others. */
  predicate FlagsFor(t: Tables, flags: seq<nat>, met: seq<nat>) {
    forall i | 0 <= i < |flags| ::
      flags[i] == if i !in met then 0 else if t.kindOf(i).Prefixed? then 2 else 1
  }

  lemma {:induction false} OneMoreListed(t: Tables, words: seq<nat>, i: nat)
    requires 4 * i + 4 <= |words|
    ensures Records(words, i + 1) == Records(words, i) + [RecordAt(words, i)]
    ensures Listed(t, Records(words, i + 1)) ==
            var r := RecordAt(words, i);
            if t.kindOf(t.idOf(r.name)).Declaration? then Listed(t, Records(words, i))
            else Listed(t, Records(words, i)) + [t.idOf(r.name), StoredWord(t, r)]
    ensures IdsOf(t, Records(words, i + 1)) == IdsOf(t, Records(words, i)) + [t.idOf(RecordAt(words, i).name)]
    ensures Declared(t, Records(words, i + 1)) ==
            var r := RecordAt(words, i);
            if !t.kindOf(t.idOf(r.name)).Declaration? then Declared(t, Records(words, i))
            else Declared(t, Records(words, i)) + [DeclarationOf(t, t.idOf(r.name), StoredWord(t, r))]
    ensures SpecifiedError(t, Records(words, i + 1)) ==
            var e := SpecifiedError(t, Records(words, i));
            if !e.None? then e else RecordError(t, IdsOf(t, Records(words, i)), RecordAt(words, i))
  {
    assert Records(words, i + 1) == Records(words, i) + [RecordAt(words, i)];
    assert (Records(words, i) + [RecordAt(words, i)])[..i] == Records(words, i);
  }

  /** An error stays the first one. */
  lemma {:induction false} ErrorStays(t: Tables, words: seq<nat>, i: nat, n: nat)
    requires i <= n && 4 * n <= |words| && !SpecifiedError(t, Records(words, i)).None?
    ensures SpecifiedError(t, Records(words, n)) == SpecifiedError(t, Records(words, i))
    decreases n
  {
    hide Records;
    hide SpecifiedError;
    if i < n {
      ErrorStays(t, words, i, n - 1);
      OneMoreListed(t, words, n - 1);
    }
  }

  class Attributes {
    const t: Tables
    const flags: array<nat>
    const table: N.NsAttTable
    /** The byte in front of the k-th string of the pool. */
    const frontOf: nat -> nat
    var nPrefixes: nat
    /** The declarations in scope; the bindings that represent them are in module NamespaceParsing. */
    var decls: seq<S.Decl>
    var pool: seq<PoolString>

    constructor (t: Tables, hash: string -> nat, frontOf: nat -> nat)
      ensures this.t == t && this.frontOf == frontOf && table.hash == hash && decls == [] && pool == []
      ensures fresh(flags) && flags.Length == t.ids && AllClear(flags[..])
      ensures fresh(table) && fresh(table.slots) && table.Idle()
    {
      this.t, this.frontOf := t, frontOf;
      flags := new nat[t.ids](_ => 0);
      table := new N.NsAttTable(hash);
      nPrefixes, decls, pool := 0, [], [];
    }

    ghost predicate Valid()
    {
      GoodTables(t) && flags.Length == t.ids
    }

    ghost function Seen(): Progress
      reads this`nPrefixes, this`decls, flags
    {
      Progress(flags[..], nPrefixes, decls)
    }

    /**
     * The loop over the specified attributes: each record is read before its words are written.
     * Declarations come into force one by one; the first thing wrong ends the loop.
     */
    method Specified(words: array<nat>, n: nat) returns (error: Error, attIndex: nat, declarations: seq<nat>)
      requires Valid() && AllClear(flags[..]) && words != flags && 4 * n <= words.Length
      modifies words, flags, this`nPrefixes, this`decls
      ensures error == SpecifiedError(t, old(Records(words[..], n)))
      ensures error.None? ==> SoFar(t, Seen(), words[..], old(words[..]), n, attIndex, declarations, old(decls))
    {
      hide SoFar;
      hide Records;
      ghost var was, outer := words[..], decls;
      error, attIndex, declarations := None, 0, [];
      nPrefixes := 0;
      NothingYet(was);
      var i := 0;
      while i < n
        invariant 0 <= i <= n && error.None? && SoFar(t, Seen(), words[..], was, i, attIndex, declarations, outer)
      {
        error, attIndex, declarations := One(words, was, i, attIndex, declarations, outer);
        i := i + 1;
        if !error.None? {
          ErrorStays(t, was, i, n);
          return;
        }
      }
      SoFarMeans(t, Seen(), words[..], was, n, attIndex, declarations, outer);
    }

    lemma {:induction false} NothingYet(was: seq<nat>)
      requires Valid() && AllClear(flags[..]) && nPrefixes == 0
      ensures SoFar(t, Seen(), was, was, 0, 0, [], decls)
    {
      assert was[0..] == was;
      assert decls + [] == decls;
    }

    /** One attribute. */
    method One(words: array<nat>, ghost was: seq<nat>, i: nat, attIndex: nat, declarations: seq<nat>,
               ghost outer: seq<S.Decl>)
      returns (error: Error, next: nat, more: seq<nat>)
      requires Valid() && words != flags && 4 * i + 4 <= |was| == words.Length
      requires SoFar(t, Seen(), words[..], was, i, attIndex, declarations, outer)
      modifies words, flags, this`nPrefixes, this`decls
      ensures error == SpecifiedError(t, Records(was, i + 1))
      ensures error.None? ==> SoFar(t, Seen(), words[..], was, i + 1, next, more, outer)
    {
      hide SoFar;
      hide SpecifiedError;
      ghost var seen, before := Seen(), words[..];
      SoFarIs(t, seen, before, was, i, attIndex, declarations, outer);
      next, more := attIndex, declarations;
      var id := t.idOf(words[4 * i]);
      if flags[id] != 0 {
        return DuplicateAttribute, next, more;
      }
      flags[id] := if t.kindOf(id).Prefixed? then 2 else 1;
      var value := WriteOne(words, i, attIndex, id);
      if value.Nothing? {
        return BadValue, next, more;
      }
      if t.kindOf(id).Declaration? {
        error := AddBinding(id, value.value);
        if !error.None? {
          return;
        }
        more := declarations + [id];
        DeclaredOne(t, seen, Seen(), before, words[..], was, i, attIndex, declarations, outer, id);
      } else {
        next := next + 2;
        if t.kindOf(id).Prefixed? {
          nPrefixes := nPrefixes + 1;
        }
        ListedOne(t, seen, Seen(), before, words[..], was, i, attIndex, declarations, outer, id);
      }
      error := None;
    }

    /** The two writes for one attribute, between which the rest of its record is read. */
    method WriteOne(words: array<nat>, i: nat, attIndex: nat, id: nat) returns (value: Maybe<nat>)
      requires attIndex <= 2 * i && attIndex % 2 == 0 && 4 * i + 4 <= words.Length
      modifies words
      ensures value == t.value(old(RecordAt(words[..], i)))
      ensures words[..attIndex] == old(words[..attIndex]) && words[4 * i + 4..] == old(words[4 * i + 4..])
      ensures value.Just? ==> words[attIndex] == id && words[attIndex + 1] == value.value
    {
      var name := words[4 * i];
      words[attIndex] := id;
      var r := Record(name, words[4 * i + 1], words[4 * i + 2], words[4 * i + 3]);
      value := t.value(r);
      if value.Just? {
        words[attIndex + 1] := value.value;
      }
    }

    /** addBinding, as far as the declarations in scope go. */
    method AddBinding(id: nat, value: nat) returns (error: Error)
      modifies this`decls
      ensures error == if S.Refused(DeclarationOf(t, id, value)) then BadDeclaration else None
      ensures decls == if error.None? then old(decls) + [DeclarationOf(t, id, value)] else old(decls)
    {
      var prefix, uri := t.prefixOf(id), t.text(value);
      if uri == "" && prefix != 0 {
        return BadDeclaration;
      }
      decls := decls + [S.Decl(prefix, uri)];
      return None;
    }

    /** After i defaults: the list so far, the flags and the declarations. */
    ghost predicate DefaultsSoFar(words: seq<nat>, list: seq<nat>, ds: seq<Default>, i: nat, specified: seq<nat>,
                                  next: nat, more: seq<nat>, outer: seq<S.Decl>)
      requires i <= |ds|
      reads this`nPrefixes, this`decls, flags
    {
      var added := Defaulted(t, ds[..i], specified);
      && next == |list| + |added| <= |words| && words[..next] == list + added
      && FlagsFor(t, flags[..], specified + NamesIn(added))
      && nPrefixes == Prefixes(t, list + added, 0)
      && decls == outer + DefaultDeclared(t, ds[..i], specified)
      && S.AllGood(DefaultDeclared(t, ds[..i], specified))
      && forall k | 0 <= k < |more| :: more[k] < t.ids
    }

    /** The loop over the defaults of the element type. */
    method AddDefaults(words: array<nat>, attIndex: nat, ds: seq<Default>, ghost specified: seq<nat>)
      returns (error: Error, next: nat, more: seq<nat>)
      requires Valid() && words != flags && attIndex + 2 * |ds| <= words.Length && GoodDefaults(t, ds)
      requires FlagsFor(t, flags[..], specified) && attIndex % 2 == 0
      requires nPrefixes == Prefixes(t, words[..attIndex], 0)
      modifies words, flags, this`nPrefixes, this`decls
      ensures error == if S.AllGood(DefaultDeclared(t, ds, specified)) then None else BadDeclaration
      ensures error.None? ==>
                && next <= words.Length
                && DefaultsSoFar(words[..], old(words[..attIndex]), ds, |ds|, specified, next, more, old(decls))
    {
      hide NamesIn;
      hide FlagsFor;
      hide Prefixes;
      hide Defaulted;
      hide DefaultDeclared;
      next, more, error := attIndex, [], None;
      ghost var list, outer := words[..attIndex], decls;
      NoDefaults(t, specified);
      assert list + [] == list && specified + [] == specified && outer + [] == outer && ds[..0] == [];
      assert ds[..|ds|] == ds;
      var i := 0;
      while i < |ds|
        invariant 0 <= i <= |ds| && error.None?
        invariant DefaultsSoFar(words[..], list, ds, i, specified, next, more, outer)
      {
        error, next, more := AddDefault(words, next, ds, i, specified, list, more, outer);
        i := i + 1;
        if !error.None? {
          BadStays(t, ds, specified, i);
          return;
        }
      }
    }

    /** One default. */
    method AddDefault(words: array<nat>, at: nat, ds: seq<Default>, i: nat, ghost specified: seq<nat>,
                      ghost list: seq<nat>, extra: seq<nat>, ghost outer: seq<S.Decl>)
      returns (error: Error, next: nat, more: seq<nat>)
      requires Valid() && words != flags && i < |ds| && GoodDefaults(t, ds) && |list| % 2 == 0
      requires |list| + 2 * |ds| <= words.Length
      requires DefaultsSoFar(words[..], list, ds, i, specified, at, extra, outer)
      modifies words, flags, this`nPrefixes, this`decls
      ensures error == if S.AllGood(DefaultDeclared(t, ds[..i + 1], specified)) then None else BadDeclaration
      ensures error.None? ==> DefaultsSoFar(words[..], list, ds, i + 1, specified, next, more, outer)
    {
      hide NamesIn;
      hide FlagsFor;
      hide Prefixes;
      hide Defaulted;
      hide DefaultDeclared;
      next, more, error := at, extra, None;
      var d := ds[i];
      ghost var before, declared := Defaulted(t, ds[..i], specified), DefaultDeclared(t, ds[..i], specified);
      OneMoreDefault(t, ds, i, specified);
      NewDefault(t, ds, i, specified, flags[..]);
      if flags[d.id] == 0 && d.value.Just? {
        if t.kindOf(d.id).Declaration? {
          error := AddBinding(d.id, d.value.value);
          AllGoodMore(declared, DeclarationOf(t, d.id, d.value.value));
          if !error.None? {
            return;
          }
          more := extra + [d.id];
          assert outer + declared + [DeclarationOf(t, d.id, d.value.value)] ==
              outer + (declared + [DeclarationOf(t, d.id, d.value.value)]);
        } else {
          FlagSet(t, flags[..], specified + NamesIn(before), d.id);
          NamesMore(before, d.id, d.value.value);
          assert specified + NamesIn(before) + [d.id] == specified + NamesIn(before + [d.id, d.value.value]);
          assert list + before + [d.id, d.value.value] == list + (before + [d.id, d.value.value]);
          flags[d.id] := if t.kindOf(d.id).Prefixed? then 2 else 1;
          next := PutDefault(words, next, d);
        }
      }
    }

    /** The two words of a default. */
    method PutDefault(words: array<nat>, at: nat, d: Default) returns (next: nat)
      requires Valid() && at + 2 <= words.Length && at % 2 == 0 && d.id < t.ids && d.value.Just?
      requires nPrefixes == Prefixes(t, words[..at], 0) && words != flags
      modifies words, this`nPrefixes
      ensures next == at + 2 && words[..next] == old(words[..at]) + [d.id, d.value.value]
      ensures nPrefixes == Prefixes(t, words[..next], 0)
    {
      PrefixesMore(t, words[..at], 0, d.id, d.value.value);
      if t.kindOf(d.id).Prefixed? {
        nPrefixes := nPrefixes + 1;
      }
      words[at] := d.id;
      words[at + 1] := d.value.value;
      assert words[..at + 2] == old(words[..at]) + [d.id, d.value.value];
      return at + 2;
    }

    /** One prefixed name: its expansion into the pool, unless its prefix is unbound or it clashes. */
    method ExpandOne(words: array<nat>, i: nat, id: nat, ghost entries: seq<N.Entry>) returns (error: Error)
      requires i < words.Length && table.Entering(entries) && 2 * |entries| < Probing.Pow2(table.power)
      modifies words, this`pool, table.slots
      ensures error == var name := NameOf(t, decls, id);
                       if name.Nothing? then UnboundPrefix
                       else if Known(entries, table.hash(name.value), name.value) then DuplicateAttribute
                       else None
      ensures table.Entering(if error.None? then entries + [EntryFor(id)] else entries)
      ensures error.None? ==>
                && NameOf(t, decls, id).Just?
                && pool == old(pool) + [PoolString(frontOf(|old(pool)|), StoredForm(t, id, NameOf(t, decls, id).value))]
                && words[..] == old(words[..])[i := t.ids + |old(pool)|]
      ensures !error.None? ==> words[..] == old(words[..]) && pool == old(pool)
    {
      hide N.NsAttTable.Entering;
      hide StoredForm;
      hide S.Innermost;
      hide N.Matches;
      var uri := S.Innermost(decls, t.prefixOf(id));
      if uri.Nothing? {
        return UnboundPrefix;
      }
      var name := uri.value + t.style.separator + t.localOf(id);
      var form := StoredForm(t, id, name);
      var duplicate := table.Insert(name, form, entries);
      if duplicate {
        return DuplicateAttribute;
      }
      words[i] := t.ids + |pool|;
      pool := pool + [PoolString(frontOf(|pool|), form)];
      return None;
    }

    /** What the table holds for an attribute. */
    ghost function EntryFor(id: nat): N.Entry
      reads this`decls
    {
      var name := NameOf(t, decls, id);
      if name.Nothing? then N.Entry(0, "") else N.Entry(table.hash(name.value), StoredForm(t, id, name.value))
    }

    /** One turn of the expanding loop; `left` counts the prefixed names still to come. */
    method ExpandWord(words: array<nat>, i: nat, left: nat, ghost list: seq<nat>, ghost entries: seq<N.Entry>,
                      ghost declarations: seq<nat>, ghost before: seq<PoolString>)
      returns (error: Error, rest: nat, ghost more: seq<N.Entry>)
      requires Valid() && words != flags && i < |list| <= words.Length && GoodList(t, list)
      requires ExpandedSoFar(Names(), list, words[..], flags[..], i, left, entries, declarations, before, pool)
      requires table.Entering(entries) && 2 * (|entries| + left) < Probing.Pow2(table.power)
      modifies words, flags, this`pool, table.slots
      ensures table.Entering(more) && words[|list|..] == old(words[|list|..])
      ensures !error.None? ==> error == ExpandError(t, table.hash, decls, PrefixedIn(t, list))
      ensures error.None? && rest > 0 ==>
                && i + 2 <= |list| && 2 * (|more| + rest) < Probing.Pow2(table.power)
                && ExpandedSoFar(Names(), list, words[..], flags[..], i + 2, rest, more, declarations, before, pool)
      ensures error.None? && rest == 0 ==>
                && ExpandedAll(Names(), list, words[..], flags[..], i, declarations, before, pool)
                && words[i] == t.ids + |pool| - 1 && |pool| > |before|
    {
      hide ExpandedSoFar;
      hide ExpandedAll;
      hide GoodList;
      hide ExpandError;
      hide PrefixedIn;
      hide Prefixes;
      hide NameOf;
      hide Known;
      hide StoredForm;
      hide N.NsAttTable.Entering;
      ghost var was, unread := words[..], words[|list|..];
      ExpandedIs(Names(), list, words[..], flags[..], i, left, entries, declarations, before, pool);
      NextName(t, list, i);
      var s := words[i];
      error, rest, more := None, left, entries;
      var prefixed := flags[s] == 2;
      flags[s] := 0;
      if prefixed {
        error := ExpandOne(words, i, s, entries);
        if !error.None? {
          return;
        }
        rest, more := left - 1, entries + [EntryFor(s)];
        assert words[|list|..] == unread;
      }
      OneExpanded(Names(), list, was, words[..], old(flags[..]), flags[..], i, left, entries, more, declarations, before,
                  old(pool), pool);
    }

    ghost function Names(): Naming
      reads this`decls
    {
      Naming(t, table.hash, decls, frontOf)
    }

    /** The loop that expands, which ends at the last prefixed name. */
    method ExpandNames(words: array<nat>, attIndex: nat, ghost declarations: seq<nat>) returns (error: Error, i: nat)
      requires Valid() && words != flags && attIndex <= words.Length && attIndex % 2 == 0 && table.Idle()
      requires GoodList(t, words[..attIndex]) && nPrefixes == Prefixes(t, words[..attIndex], 0)
      requires Pending(flags[..], words[..attIndex], 0, declarations) && Right(t, flags[..], words[..attIndex], 0)
      modifies words, flags, this`pool, table, table.slots
      ensures table.Idle() && i <= attIndex && words[attIndex..] == old(words[attIndex..])
      ensures error == ExpandError(t, table.hash, decls, PrefixedIn(t, old(words[..attIndex])))
      ensures error.None? ==> ExpandedAll(Names(), old(words[..attIndex]), words[..], flags[..], i, declarations, old(pool), pool)
      ensures error.None? && nPrefixes > 0 ==> i < attIndex && words[i] == t.ids + |pool| - 1 && |pool| > |old(pool)|
      ensures error.None? && nPrefixes == 0 ==> i == 0 && words[..] == old(words[..]) && pool == old(pool)
    {
      hide GoodList;
      hide Right;
      hide Pending;
      hide Prefixes;
      hide PrefixedIn;
      hide ExpandError;
      ghost var list, before, outside := words[..attIndex], pool, words[attIndex..];
      var left := nPrefixes;
      error, i := None, 0;
      if left == 0 {
        NoneExpanded(t, table.hash, decls, list, pool);
        return;
      }
      table.Begin(left);
      ghost var entries: seq<N.Entry> := [];
      StartExpanding(t, table.hash, decls, list, pool);
      assert words[..][0..attIndex] == list[0..] && list[..0] == [] == words[..][..0];
      while i < attIndex
        invariant i <= attIndex && words[attIndex..] == outside && error.None?
        invariant table.slots == old(table.slots) || fresh(table.slots)
        invariant ExpandedSoFar(Names(), list, words[..], flags[..], i, left, entries, declarations, before, pool)
        invariant table.Entering(entries) && 2 * (|entries| + left) < Probing.Pow2(table.power)
      {
        error, left, entries := ExpandWord(words, i, left, list, entries, declarations, before);
        if !error.None? || left == 0 {
          return;
        }
        i := i + 2;
      }
      NoneAtEnd(t, list, i);
      assert false;
    }

    /** Clears the byte in front of a name: the flag of an attribute, or what stands before the last new string. */
    method ClearName(words: array<nat>, i: nat, ghost list: seq<nat>, ghost declarations: seq<nat>, ghost first: nat,
                     ghost expanded: seq<PoolString>)
      requires Valid() && words != flags && first <= i < |list| <= words.Length && i % 2 == 0 && GoodList(t, list)
      requires IsExpanded(t, decls, list, words[..|list|], expanded) && Pending(flags[..], list, i, declarations)
      requires forall k | first < k < |list| && k % 2 == 0 :: !IsPrefixed(t, list[k])
      requires nPrefixes == 0 ==> first == 0 && words[first] == list[first]
      requires nPrefixes > 0 ==> words[first] == t.ids + |expanded| - 1 && |expanded| > 0
      requires i == first && IsPrefixed(t, list[first]) ==> flags[list[first]] == 0
      requires pool == if i == first || nPrefixes == 0 then expanded else LastCleared(expanded)
      modifies flags, this`pool
      ensures Pending(flags[..], list, i + 2, declarations)
      ensures pool == if nPrefixes == 0 then expanded else LastCleared(expanded)
    {
      hide Pending;
      hide NameOf;
      hide StoredForm;
      hide GoodList;
      var w := words[i];
      assert IsExpandedWord(t, decls, list, words[..|list|][i], expanded, i);
      GoodAt(t, list, i);
      ClearOne(flags[..], list, i, declarations);
      if w < t.ids {
        flags[w] := 0;
      } else {
        pool := pool[w - t.ids := pool[w - t.ids].(front := 0)];
      }
    }

    /** The loop that clears the flags of the names from the last prefixed one on. */
    method ClearNames(words: array<nat>, attIndex: nat, first: nat, ghost list: seq<nat>, ghost declarations: seq<nat>)
      requires Valid() && words != flags && first <= attIndex == |list| <= words.Length && first % 2 == 0
      requires GoodList(t, list) && IsExpanded(t, decls, list, words[..|list|], pool)
      requires Pending(flags[..], list, first, declarations)
      requires forall k | first < k < |list| && k % 2 == 0 :: !IsPrefixed(t, list[k])
      requires nPrefixes == 0 ==> first == 0 && (first < attIndex ==> words[first] == list[first])
      requires nPrefixes > 0 ==> first < attIndex && words[first] == t.ids + |pool| - 1 && |pool| > 0
      requires first < attIndex && IsPrefixed(t, list[first]) ==> flags[list[first]] == 0
      modifies flags, this`pool
      ensures Pending(flags[..], list, |list|, declarations)
      ensures pool == if nPrefixes == 0 then old(pool) else LastCleared(old(pool))
    {
      hide Pending;
      hide IsExpanded;
      hide GoodList;
      GoodLength(t, list);
      ghost var expanded := pool;
      var i := first;
      while i < attIndex
        invariant first <= i <= attIndex && i % 2 == 0 && Pending(flags[..], list, i, declarations)
        invariant pool == if i == first || nPrefixes == 0 then expanded else LastCleared(expanded)
        invariant i == first < attIndex && IsPrefixed(t, list[first]) ==> flags[list[first]] == 0
        modifies flags, this`pool
      {
        ClearName(words, i, list, declarations, first, expanded);
        i := i + 2;
      }
    }

    /**
     * The expansion of prefixed names, and the clearing of the flags: of the names up to the last
     * prefixed one, of the others, and of the declarations.  The second loop begins at that last
     * name, which has been expanded, and clears the byte in front of its new form.
     */
    method ExpandAndClear(words: array<nat>, attIndex: nat, declarations: seq<nat>) returns (error: Error)
      requires Valid() && words != flags && attIndex <= words.Length && attIndex % 2 == 0 && table.Idle()
      requires GoodList(t, words[..attIndex]) && nPrefixes == Prefixes(t, words[..attIndex], 0)
      requires (forall k | 0 <= k < |declarations| :: declarations[k] < t.ids)
      requires Pending(flags[..], words[..attIndex], 0, declarations) && Right(t, flags[..], words[..attIndex], 0)
      modifies words, flags, this`pool, table, table.slots
      ensures table.Idle() && words[attIndex..] == old(words[attIndex..])
      ensures error == ExpandError(t, table.hash, decls, PrefixedIn(t, old(words[..attIndex])))
      ensures error.None? ==> AllClear(flags[..]) && IsExpanded(t, decls, old(words[..attIndex]), words[..attIndex], pool)
      ensures error.None? ==>
                && old(pool) <= pool
                && forall k | |old(pool)| <= k < |pool| :: pool[k].front == if k == |pool| - 1 then 0 else frontOf(k)
    {
      hide Pending;
      hide PrefixedIn;
      hide ExpandError;
      hide GoodList;
      hide Right;
      hide Prefixes;
      hide IsExpanded;
      hide ExpandedAll;
      hide N.NsAttTable.Idle;
      ghost var list, before := words[..attIndex], pool;
      var i;
      error, i := ExpandNames(words, attIndex, declarations);
      if !error.None? {
        return;
      }
      AllIs(Names(), list, words[..], flags[..], i, declarations, before, pool);
      ghost var expanded := pool;
      ClearNames(words, attIndex, i, list, declarations);
      ClearDeclarations(list, declarations);
      if nPrefixes > 0 {
        FrontsOnly(t, decls, list, words[..attIndex], before, expanded, frontOf);
      }
    }

    /**
     * storeAtts: the specified attributes in order, then the defaults that apply, with prefixed
     * names expanded and a zero behind them, all in the array the scanner filled; every flag is
     * clear again, and the declarations of the element are in force.
     */
    method StoreAtts(words: array<nat>, n: nat, ds: seq<Default>) returns (error: Error, nSpecified: nat, attIndex: nat)
      requires Valid() && AllClear(flags[..]) && words != flags && GoodDefaults(t, ds) && table.Idle()
      requires 4 * (n + |ds|) <= words.Length && words.Length > 0
      modifies words, flags, this`nPrefixes, this`decls, this`pool, table, table.slots
      ensures table.Idle()
      ensures var rs := old(Records(words[..], n));
              var list := WholeList(t, rs, ds);
              && error == StoreError(t, table.hash, old(decls), rs, ds)
              && (error.None? ==> && nSpecified == |Listed(t, rs)| && attIndex == |list| < words.Length
                                  && decls == InForce(t, old(decls), rs, ds)
                                  && IsExpanded(t, decls, list, words[..attIndex], pool)
                                  && words[attIndex] == 0 && AllClear(flags[..]))
    {
      hide Listed;
      hide Defaulted;
      hide Declared;
      hide DefaultDeclared;
      hide Records;
      hide FlagsFor;
      hide Distinct;
      hide ExpandError;
      hide PrefixedIn;
      hide IsExpanded;
      var declarations, more;
      ghost var was := words[..];
      ghost var rs := Records(was, n);
      error, attIndex, declarations := Specified(words, n);
      nSpecified := attIndex;
      if !error.None? {
        return;
      }
      ghost var own := words[..attIndex];
      assert ds[..|ds|] == ds;
      error, attIndex, more := AddDefaults(words, attIndex, ds, IdsOf(t, rs));
      if !error.None? {
        return;
      }
      ghost var list := words[..attIndex];
      assert list == WholeList(t, rs, ds);
      words[attIndex] := 0;
      assert words[..attIndex] == list && words[attIndex..][0] == 0;
      ReadyToClear(t, was, n, ds, flags[..], list, declarations + more);
      error := ExpandAndClear(words, attIndex, declarations + more);
      assert words[attIndex] == words[attIndex..][0];
    }

    method ClearDeclarations(ghost list: seq<nat>, declarations: seq<nat>)
      requires Valid() && |list| % 2 == 0 && Pending(flags[..], list, |list|, declarations)
      requires forall k | 0 <= k < |declarations| :: declarations[k] < t.ids
      modifies flags
      ensures AllClear(flags[..])
    {
      var i := 0;
      while i < |declarations|
        invariant 0 <= i <= |declarations|
        invariant forall x | 0 <= x < flags.Length && flags[x] != 0 :: x in declarations[i..]
      {
        assert declarations[i..] == [declarations[i]] + declarations[i + 1..];
        flags[declarations[i]] := 0;
        i := i + 1;
      }
    }
  }

  /** The byte in front of the last string of the pool is cleared. */
  function LastCleared(pool: seq<PoolString>): seq<PoolString> {
    if |pool| == 0 then pool else pool[|pool| - 1 := pool[|pool| - 1].(front := 0)]
  }

  predicate Appended(before: seq<PoolString>, pool: seq<PoolString>, frontOf: nat -> nat) {
    before <= pool && forall k | |before| <= k < |pool| :: pool[k].front == frontOf(k)
  }

  /** What the expansion of names depends on. */
  datatype Naming = Naming(t: Tables, hash: string -> nat, decls: seq<S.Decl>, frontOf: nat -> nat)

  /** Up to word i: the list with its prefixed names expanded, the table, the flags and the pool. */
  ghost predicate ExpandedSoFar(n: Naming, list: seq<nat>, words: seq<nat>, flags: seq<nat>, i: nat, left: nat,
                                entries: seq<N.Entry>, declarations: seq<nat>, before: seq<PoolString>,
                                pool: seq<PoolString>)
  {
    && i <= |list| <= |words| && i % 2 == 0 && left == Prefixes(n.t, list, i) && left > 0
    && words[i..|list|] == list[i..] && IsExpanded(n.t, n.decls, list[..i], words[..i], pool)
    && Entered(n.t, n.hash, n.decls, PrefixedIn(n.t, list[..i]), entries)
    && Pending(flags, list, i, declarations) && Right(n.t, flags, list, i)
    && Appended(before, pool, n.frontOf)
  }

  /** Behind the last prefixed name, which is word i or absent. */
  ghost predicate ExpandedAll(n: Naming, list: seq<nat>, words: seq<nat>, flags: seq<nat>, i: nat, declarations: seq<nat>,
                              before: seq<PoolString>, pool: seq<PoolString>)
  {
    && |list| <= |words| && i % 2 == 0 && IsExpanded(n.t, n.decls, list, words[..|list|], pool)
    && ExpandError(n.t, n.hash, n.decls, PrefixedIn(n.t, list)).None?
    && Pending(flags, list, i, declarations)
    && (forall k | i <= k < |list| && k % 2 == 0 && IsPrefixed(n.t, list[k]) && list[k] < |flags| :: flags[list[k]] == 0)
    && (forall k | i < k < |list| && k % 2 == 0 :: !IsPrefixed(n.t, list[k]))
    && Appended(before, pool, n.frontOf)
  }

  predicate Known(entries: seq<N.Entry>, h: nat, name: string) {
    exists e | e in entries :: N.Matches(e, h, name)
  }

  /** These names are bound, in the table, and without a clash. */
  ghost predicate Entered(t: Tables, hash: string -> nat, decls: seq<S.Decl>, done: seq<nat>, entries: seq<N.Entry>) {
    && |entries| == |done| && (forall k | 0 <= k < |done| :: NameOf(t, decls, done[k]).Just?)
    && (forall k | 0 <= k < |done| ::
          entries[k] == N.Entry(hash(NameOf(t, decls, done[k]).value), StoredForm(t, done[k], NameOf(t, decls, done[k]).value)))
    && N.FirstClash(hash, NamesOf(t, decls, done), FormsOf(t, decls, done), 0) == -1
  }

  /** The flags, the number of prefixed names, and the declarations in scope. */
  datatype Progress = Progress(flags: seq<nat>, nPrefixes: nat, decls: seq<S.Decl>)

  /** After i attributes: the list so far, the unread records, the flags and the declarations. */
  ghost predicate SoFar(t: Tables, p: Progress, words: seq<nat>, was: seq<nat>, i: nat, attIndex: nat,
                        declarations: seq<nat>, outer: seq<S.Decl>)
    requires 4 * i <= |was| == |words|
  {
    var rs := Records(was, i);
    && attIndex <= 2 * i && attIndex % 2 == 0
    && words[4 * i..] == was[4 * i..]
    && attIndex == |Listed(t, rs)| && words[..attIndex] == Listed(t, rs)
    && SpecifiedError(t, rs).None? && p.decls == outer + Declared(t, rs)
    && Distinct(IdsOf(t, rs)) && FlagsFor(t, p.flags, IdsOf(t, rs))
    && p.nPrefixes == Prefixes(t, Listed(t, rs), 0)
    && (forall k | 0 <= k < |declarations| :: declarations[k] < t.ids)
    && forall id | id in IdsOf(t, rs) :: id in declarations || id in NamesIn(Listed(t, rs))
  }

  lemma {:induction false} SoFarMeans(t: Tables, p: Progress, words: seq<nat>, was: seq<nat>, n: nat, attIndex: nat,
                                      declarations: seq<nat>, outer: seq<S.Decl>)
    requires 4 * n <= |was| == |words| && SoFar(t, p, words, was, n, attIndex, declarations, outer)
    ensures SpecifiedError(t, Records(was, n)).None?
  {
  }

  /** The next record, and what is wrong with it. */
  lemma {:induction false} SoFarIs(t: Tables, p: Progress, words: seq<nat>, was: seq<nat>, i: nat, attIndex: nat,
                                   declarations: seq<nat>, outer: seq<S.Decl>)
    requires GoodTables(t) && |p.flags| == t.ids && 4 * i + 4 <= |was| == |words|
    requires SoFar(t, p, words, was, i, attIndex, declarations, outer)
    ensures attIndex <= 2 * i && attIndex % 2 == 0 && RecordAt(words, i) == RecordAt(was, i)
    ensures p.decls == outer + Declared(t, Records(was, i))
    ensures SpecifiedError(t, Records(was, i + 1)) == RecordError(t, IdsOf(t, Records(was, i)), RecordAt(was, i))
    ensures var id := t.idOf(RecordAt(was, i).name);
            id < t.ids && (p.flags[id] != 0 <==> id in IdsOf(t, Records(was, i)))
  {
    hide Records;
    hide Listed;
    hide Declared;
    hide RecordError;
    SameRecord(words, was, i);
    OneMoreListed(t, was, i);
    FlagMeans(t, p.flags, IdsOf(t, Records(was, i)), t.idOf(RecordAt(was, i).name));
  }

  /** What one attribute does to the words, when its value has been stored. */
  ghost predicate Written(t: Tables, before: seq<nat>, words: seq<nat>, was: seq<nat>, i: nat, attIndex: nat)
    requires 4 * i + 4 <= |was| == |words| == |before| && attIndex <= 2 * i
  {
    && words[..attIndex] == before[..attIndex] && words[4 * i + 4..] == before[4 * i + 4..]
    && words[attIndex] == t.idOf(RecordAt(was, i).name) && words[attIndex + 1] == StoredWord(t, RecordAt(was, i))
  }

  lemma {:induction false} DeclaredOne(t: Tables, p: Progress, q: Progress, before: seq<nat>, words: seq<nat>,
                                       was: seq<nat>, i: nat, attIndex: nat, declarations: seq<nat>, outer: seq<S.Decl>,
                                       id: nat)
    requires GoodTables(t) && |p.flags| == t.ids && 4 * i + 4 <= |was| == |words| == |before| && attIndex <= 2 * i
    requires SoFar(t, p, before, was, i, attIndex, declarations, outer) && Written(t, before, words, was, i, attIndex)
    requires SpecifiedError(t, Records(was, i + 1)).None? && t.idOf(RecordAt(was, i).name) !in IdsOf(t, Records(was, i))
    requires id == t.idOf(RecordAt(was, i).name)
    requires t.kindOf(id).Declaration? && q.flags == p.flags[id := 1] && q.nPrefixes == p.nPrefixes
    requires q.decls == p.decls + [DeclarationOf(t, id, StoredWord(t, RecordAt(was, i)))]
    ensures SoFar(t, q, words, was, i + 1, attIndex, declarations + [id], outer)
  {
    hide Records;
    hide Listed;
    hide Declared;
    hide SpecifiedError;
    hide Distinct;
    hide NamesIn;
    hide FlagsFor;
    hide Prefixes;
    OneMoreListed(t, was, i);
    NowListed(t, was, i, p.flags, id, declarations);
    assert words[4 * (i + 1)..] == before[4 * i..][4..];
    assert was[4 * (i + 1)..] == was[4 * i..][4..];
    var d := [DeclarationOf(t, id, StoredWord(t, RecordAt(was, i)))];
    assert outer + Declared(t, Records(was, i)) + d == outer + (Declared(t, Records(was, i)) + d);
  }

  lemma {:induction false} ListedOne(t: Tables, p: Progress, q: Progress, before: seq<nat>, words: seq<nat>,
                                     was: seq<nat>, i: nat, attIndex: nat, declarations: seq<nat>, outer: seq<S.Decl>,
                                       id: nat)
    requires GoodTables(t) && |p.flags| == t.ids && 4 * i + 4 <= |was| == |words| == |before| && attIndex <= 2 * i
    requires SoFar(t, p, before, was, i, attIndex, declarations, outer) && Written(t, before, words, was, i, attIndex)
    requires SpecifiedError(t, Records(was, i + 1)).None? && t.idOf(RecordAt(was, i).name) !in IdsOf(t, Records(was, i))
    requires id == t.idOf(RecordAt(was, i).name)
    requires !t.kindOf(id).Declaration? && q.flags == p.flags[id := if t.kindOf(id).Prefixed? then 2 else 1]
    requires q.nPrefixes == p.nPrefixes + (if t.kindOf(id).Prefixed? then 1 else 0) && q.decls == p.decls
    ensures SoFar(t, q, words, was, i + 1, attIndex + 2, declarations, outer)
  {
    hide Records;
    hide Listed;
    hide Declared;
    hide SpecifiedError;
    hide Distinct;
    hide NamesIn;
    hide FlagsFor;
    hide Prefixes;
    var r, list := RecordAt(was, i), Listed(t, Records(was, i));
    OneMoreListed(t, was, i);
    NowListed(t, was, i, p.flags, id, declarations);
    PrefixesMore(t, list, 0, id, StoredWord(t, r));
    assert words[4 * (i + 1)..] == before[4 * i..][4..];
    assert was[4 * (i + 1)..] == was[4 * i..][4..];
    assert words[..attIndex + 2] == list + [id, StoredWord(t, r)];
  }

  /** The flags and the names after one more attribute. */
  lemma {:induction false} NowListed(t: Tables, was: seq<nat>, i: nat, flags: seq<nat>, id: nat, declarations: seq<nat>)
    requires 4 * i + 4 <= |was| && id == t.idOf(RecordAt(was, i).name) < |flags|
    requires Distinct(IdsOf(t, Records(was, i))) && FlagsFor(t, flags, IdsOf(t, Records(was, i)))
    requires id !in IdsOf(t, Records(was, i))
    requires forall x | x in IdsOf(t, Records(was, i)) :: x in declarations || x in NamesIn(Listed(t, Records(was, i)))
    ensures var ids, list := IdsOf(t, Records(was, i + 1)), Listed(t, Records(was, i + 1));
            && Distinct(ids) && FlagsFor(t, flags[id := if t.kindOf(id).Prefixed? then 2 else 1], ids)
            && forall x | x in ids :: x in (if t.kindOf(id).Declaration? then declarations + [id] else declarations) || x in NamesIn(list)
  {
    hide Distinct;
    hide NamesIn;
    hide Listed;
    hide FlagsFor;
    OneMoreListed(t, was, i);
    StillDistinct(IdsOf(t, Records(was, i)), id);
    FlagSet(t, flags, IdsOf(t, Records(was, i)), id);
    NamesMore(Listed(t, Records(was, i)), id, StoredWord(t, RecordAt(was, i)));
  }

  lemma {:induction false} SameRecord(words: seq<nat>, was: seq<nat>, i: nat)
    requires |words| == |was| && 4 * i + 4 <= |was| && words[4 * i..] == was[4 * i..]
    ensures RecordAt(words, i) == RecordAt(was, i)
  {
    assert words[4 * i] == words[4 * i..][0] && words[4 * i + 1] == words[4 * i..][1];
    assert words[4 * i + 2] == words[4 * i..][2] && words[4 * i + 3] == words[4 * i..][3];
  }

  lemma {:induction false} StillDistinct(ids: seq<nat>, id: nat)
    requires Distinct(ids) && id !in ids
    ensures Distinct(ids + [id])
  {
  }

  lemma {:induction false} FlagSet(t: Tables, flags: seq<nat>, met: seq<nat>, id: nat)
    requires FlagsFor(t, flags, met) && id < |flags|
    ensures FlagsFor(t, flags[id := if t.kindOf(id).Prefixed? then 2 else 1], met + [id])
  {
  }

  lemma {:induction false} FlagMeans(t: Tables, flags: seq<nat>, met: seq<nat>, id: nat)
    requires FlagsFor(t, flags, met) && id < |flags|
    ensures flags[id] != 0 <==> id in met
  {
  }

  lemma {:induction false} NamesMore(list: seq<nat>, name: nat, value: nat)
    ensures NamesIn(list + [name, value]) == NamesIn(list) + [name]
    ensures forall id :: id in NamesIn(list + [name, value]) <==> id in NamesIn(list) || id == name
  {
    assert (list + [name, value])[..|list|] == list;
  }

  // ----- defaults -----

  predicate GoodDefaults(t: Tables, ds: seq<Default>) {
    && (forall i | 0 <= i < |ds| :: ds[i].id < t.ids)
    && forall i, j | 0 <= i < j < |ds| :: ds[i].id != ds[j].id
  }

  lemma {:induction false} NoNames(specified: seq<nat>)
    ensures specified + NamesIn([]) == specified
  {
  }

  lemma {:induction false} NoDefaults(t: Tables, specified: seq<nat>)
    ensures Defaulted(t, [], specified) == [] && DefaultDeclared(t, [], specified) == [] && NamesIn([]) == []
  {
  }

  lemma {:induction false} OneMoreDefault(t: Tables, ds: seq<Default>, i: nat, specified: seq<nat>)
    requires i < |ds|
    ensures var d, before, declared := ds[i], Defaulted(t, ds[..i], specified), DefaultDeclared(t, ds[..i], specified);
            && Defaulted(t, ds[..i + 1], specified) ==
               (if Applies(d, specified) && !t.kindOf(d.id).Declaration? then before + [d.id, d.value.value] else before)
            && DefaultDeclared(t, ds[..i + 1], specified) ==
               (if Applies(d, specified) && t.kindOf(d.id).Declaration? then declared + [DeclarationOf(t, d.id, d.value.value)]
                else declared)
  {
    assert ds[..i + 1][..i] == ds[..i];
  }

  lemma {:induction false} AllGoodMore(declared: seq<S.Decl>, d: S.Decl)
    requires S.AllGood(declared)
    ensures S.AllGood(declared + [d]) <==> !S.Refused(d)
  {
    assert (declared + [d])[|declared|] == d;
  }

  lemma {:induction false} BadStays(t: Tables, ds: seq<Default>, specified: seq<nat>, i: nat)
    requires i <= |ds| && !S.AllGood(DefaultDeclared(t, ds[..i], specified))
    ensures !S.AllGood(DefaultDeclared(t, ds, specified))
    decreases |ds| - i
  {
    hide DefaultDeclared;
    hide Defaulted;
    if i == |ds| {
      assert ds[..i] == ds;
    } else {
      OneMoreDefault(t, ds, i, specified);
      var declared, more := DefaultDeclared(t, ds[..i], specified), DefaultDeclared(t, ds[..i + 1], specified);
      var k :| 0 <= k < |declared| && S.Refused(declared[k]);
      assert more[k] == declared[k];
      BadStays(t, ds, specified, i + 1);
    }
  }

  /** A default is new to the list exactly when its attribute was not specified. */
  lemma {:induction false} NewDefault(t: Tables, ds: seq<Default>, i: nat, specified: seq<nat>, flags: seq<nat>)
    requires GoodDefaults(t, ds) && i < |ds| && t.ids == |flags|
    requires FlagsFor(t, flags, specified + NamesIn(Defaulted(t, ds[..i], specified)))
    ensures flags[ds[i].id] == 0 <==> ds[i].id !in specified
  {
    hide NamesIn;
    hide Defaulted;
    DefaultNames(t, ds, i, specified);
  }

  lemma {:induction false} DefaultNames(t: Tables, ds: seq<Default>, i: nat, specified: seq<nat>)
    requires i <= |ds|
    ensures forall x | x in NamesIn(Defaulted(t, ds[..i], specified)) :: exists k :: 0 <= k < i && ds[k].id == x
    decreases i
  {
    hide NamesIn;
    hide Defaulted;
    hide DefaultDeclared;
    NoDefaults(t, specified);
    if i > 0 {
      DefaultNames(t, ds, i - 1, specified);
      OneMoreDefault(t, ds, i - 1, specified);
      var before, d := Defaulted(t, ds[..i - 1], specified), ds[i - 1];
      if d.value.Just? {
        NamesMore(before, d.id, d.value.value);
      }
    } else {
      assert ds[..0] == [];
    }
  }

  // ----- clearing the flags -----

  /** A list whose names are attributes, each once. */
  predicate GoodList(t: Tables, list: seq<nat>) {
    && |list| % 2 == 0
    && (forall k | 0 <= k < |list| && k % 2 == 0 :: list[k] < t.ids)
    && forall j, k | 0 <= j < k < |list| && j % 2 == 0 && k % 2 == 0 :: list[j] != list[k]
  }

  /** Only names from word `i` on, and declarations, can still carry a flag. */
  predicate Pending(flags: seq<nat>, list: seq<nat>, i: nat, declarations: seq<nat>) {
    forall x | 0 <= x < |flags| && flags[x] != 0 ::
      x in declarations || exists k :: i <= k < |list| && k % 2 == 0 && list[k] == x
  }

  /** The names from word `i` on carry their flags. */
  predicate Right(t: Tables, flags: seq<nat>, list: seq<nat>, i: nat) {
    forall k | i <= k < |list| && k % 2 == 0 && list[k] < |flags| ::
        flags[list[k]] == 2 <==> t.kindOf(list[k]).Prefixed?
  }

  lemma {:induction false} ClearOne(flags: seq<nat>, list: seq<nat>, i: nat, declarations: seq<nat>)
    requires Pending(flags, list, i, declarations) && i < |list| && i % 2 == 0
    ensures list[i] < |flags| ==> Pending(flags[list[i] := 0], list, i + 2, declarations)
    ensures list[i] < |flags| && flags[list[i]] == 0 ==> Pending(flags, list, i + 2, declarations)
  {
    if list[i] < |flags| {
      var cleared := flags[list[i] := 0];
      forall x | 0 <= x < |cleared| && cleared[x] != 0 && x !in declarations
        ensures exists k :: i + 2 <= k < |list| && k % 2 == 0 && list[k] == x
      {
        var k :| i <= k < |list| && k % 2 == 0 && list[k] == x;
        assert k >= i + 2;
      }
      assert flags[list[i]] == 0 ==> cleared == flags;
    }
  }

  lemma {:induction false} GoodLength(t: Tables, list: seq<nat>)
    requires GoodList(t, list)
    ensures |list| % 2 == 0
  {
  }

  lemma {:induction false} GoodAt(t: Tables, list: seq<nat>, i: nat)
    requires GoodList(t, list) && i < |list| && i % 2 == 0
    ensures list[i] < t.ids && |list| % 2 == 0
  {
  }

  lemma {:induction false} PendingEarlier(flags: seq<nat>, list: seq<nat>, i: nat, declarations: seq<nat>)
    requires Pending(flags, list, i + 2, declarations)
    ensures Pending(flags, list, i, declarations)
  {
    forall x | 0 <= x < |flags| && flags[x] != 0 && x !in declarations
      ensures exists k :: i <= k < |list| && k % 2 == 0 && list[k] == x
    {
      var k :| i + 2 <= k < |list| && k % 2 == 0 && list[k] == x;
    }
  }

  lemma {:induction false} KeepsRight(t: Tables, flags: seq<nat>, list: seq<nat>, i: nat)
    requires GoodList(t, list) && Right(t, flags, list, i) && i < |list| && i % 2 == 0 && list[i] < |flags|
    ensures Right(t, flags[list[i] := 0], list, i + 2)
  {
  }

  lemma {:induction false} NextName(t: Tables, list: seq<nat>, i: nat)
    requires |list| % 2 == 0 && i < |list| && i % 2 == 0
    ensures Prefixes(t, list, i) == (if IsPrefixed(t, list[i]) then 1 else 0) + Prefixes(t, list, i + 2)
  {
  }

  lemma {:induction false} NoneLeft(t: Tables, list: seq<nat>, i: nat)
    requires Prefixes(t, list, i) == 0 && i % 2 == 0 && |list| % 2 == 0
    ensures forall k | i <= k < |list| && k % 2 == 0 :: !IsPrefixed(t, list[k])
    decreases |list| - i
  {
    if i < |list| {
      NoneLeft(t, list, i + 2);
    }
  }

  lemma {:induction false} NoneAtEnd(t: Tables, list: seq<nat>, i: nat)
    requires i >= |list|
    ensures Prefixes(t, list, i) == 0
  {
  }

  lemma {:induction false} PrefixesMore(t: Tables, list: seq<nat>, i: nat, name: nat, value: nat)
    requires |list| % 2 == 0 && i % 2 == 0 && i <= |list| && name < t.ids
    ensures Prefixes(t, list + [name, value], i) == Prefixes(t, list, i) + if t.kindOf(name).Prefixed? then 1 else 0
    decreases |list| - i
  {
    var more := list + [name, value];
    if i == |list| {
      assert more[i] == name;
    } else {
      assert more[i] == list[i];
      PrefixesMore(t, list, i + 2, name, value);
    }
  }

  // ----- the expansion of names -----

  lemma {:induction false} NextPrefixed(t: Tables, list: seq<nat>, i: nat)
    requires i + 2 <= |list|
    ensures PrefixedIn(t, list[..i + 2]) ==
            PrefixedIn(t, list[..i]) + if IsPrefixed(t, list[i]) then [list[i]] else []
  {
    assert list[..i + 2][..i] == list[..i];
    if !IsPrefixed(t, list[i]) {
      assert PrefixedIn(t, list[..i]) + [] == PrefixedIn(t, list[..i]);
    }
  }

  /** What comes later only adds names. */
  lemma {:induction false} PrefixedSplit(t: Tables, list: seq<nat>, i: nat)
    requires i <= |list| && i % 2 == 0 && |list| % 2 == 0
    ensures PrefixedIn(t, list[..i]) <= PrefixedIn(t, list)
    decreases |list| - i
  {
    hide PrefixedIn;
    if i == |list| {
      assert list[..i] == list;
    } else {
      NextPrefixed(t, list, i);
      PrefixedSplit(t, list, i + 2);
    }
  }

  lemma {:induction false} NoMorePrefixed(t: Tables, list: seq<nat>, i: nat)
    requires i <= |list| && i % 2 == 0 && |list| % 2 == 0
    requires forall k | i <= k < |list| && k % 2 == 0 :: !IsPrefixed(t, list[k])
    ensures PrefixedIn(t, list) == PrefixedIn(t, list[..i])
    decreases |list| - i
  {
    hide PrefixedIn;
    if i == |list| {
      assert list[..i] == list;
    } else {
      NextPrefixed(t, list, i);
      NoMorePrefixed(t, list, i + 2);
    }
  }

  lemma {:induction false} NextExpanded(t: Tables, decls: seq<S.Decl>, list: seq<nat>, xs: seq<nat>, ws: seq<nat>, i: nat,
                                        before: seq<PoolString>, pool: seq<PoolString>)
    requires i % 2 == 0 && i + 2 <= |list| <= |ws| && before <= pool && ws[..i] == xs
    requires IsExpanded(t, decls, list[..i], xs, before)
    requires IsExpandedWord(t, decls, list, ws[i], pool, i) && ws[i + 1] == list[i + 1]
    ensures IsExpanded(t, decls, list[..i + 2], ws[..i + 2], pool)
  {
    var l, w := list[..i + 2], ws[..i + 2];
    forall k | 0 <= k < i + 2
      ensures IsExpandedWord(t, decls, l, w[k], pool, k)
    {
      if k < i {
        assert IsExpandedWord(t, decls, list[..i], xs[k], before, k) && ws[k] == xs[k];
      }
    }
  }

  lemma {:induction false} RestIsExpanded(t: Tables, decls: seq<S.Decl>, list: seq<nat>, ws: seq<nat>, i: nat,
                                          pool: seq<PoolString>)
    requires i <= |list| <= |ws| && ws[i..|list|] == list[i..] && IsExpanded(t, decls, list[..i], ws[..i], pool)
    requires forall k | i <= k < |list| && k % 2 == 0 :: !IsPrefixed(t, list[k])
    ensures IsExpanded(t, decls, list, ws[..|list|], pool)
  {
    var w := ws[..|list|];
    forall k | 0 <= k < |list|
      ensures IsExpandedWord(t, decls, list, w[k], pool, k)
    {
      if k < i {
        assert IsExpandedWord(t, decls, list[..i], ws[..i][k], pool, k);
      } else {
        assert ws[k] == ws[i..|list|][k - i] == list[i..][k - i];
      }
    }
  }

  /** The names in front of one whose prefix is unbound. */
  lemma {:induction false} BoundIs(t: Tables, decls: seq<S.Decl>, done: seq<nat>, ids: seq<nat>)
    requires done <= ids && forall k | 0 <= k < |done| :: NameOf(t, decls, done[k]).Just?
    ensures done <= BoundPart(t, decls, ids)
    ensures |done| == |ids| || NameOf(t, decls, ids[|done|]).Nothing? ==> BoundPart(t, decls, ids) == done
  {
    if |done| > 0 {
      assert done[0] == ids[0] && done[1..] <= ids[1..];
      BoundIs(t, decls, done[1..], ids[1..]);
      assert done == [done[0]] + done[1..];
    }
  }

  /** A clash stays one, whatever names come behind it. */
  lemma {:induction false} ClashStays(hash: string -> nat, names: seq<string>, forms: seq<string>, more: seq<string>,
                                      moreForms: seq<string>)
    requires |names| == |forms| && |more| == |moreForms| && names <= more && forms <= moreForms
    requires N.FirstClash(hash, names, forms, 0) != -1
    ensures N.FirstClash(hash, more, moreForms, 0) != -1
  {
    var j := N.FirstClash(hash, names, forms, 0);
    var i :| 0 <= i < j && hash(names[i]) == hash(names[j]) && names[j] <= forms[i];
    assert N.Clashes(hash, more, moreForms, j);
  }

  lemma {:induction false} KnownIs(entries: seq<N.Entry>, h: nat, name: string)
    ensures Known(entries, h, name) <==> exists e | e in entries :: N.Matches(e, h, name)
  {
  }

  /** Whether a name clashes depends on the names up to it. */
  lemma {:induction false} ClashIsEarlier(hash: string -> nat, names: seq<string>, forms: seq<string>, more: seq<string>,
                                          moreForms: seq<string>, j: nat)
    requires |names| == |forms| && |more| == |moreForms| && names <= more && forms <= moreForms && j < |names|
    ensures N.Clashes(hash, names, forms, j) <==> N.Clashes(hash, more, moreForms, j)
  {
  }

  /** One more name, at the end of those entered: it clashes exactly if the table knows it. */
  lemma {:induction false} EntersOne(t: Tables, hash: string -> nat, decls: seq<S.Decl>, done: seq<nat>,
                                     entries: seq<N.Entry>, id: nat)
    requires Entered(t, hash, decls, done, entries) && NameOf(t, decls, id).Just?
    ensures forall k | 0 <= k < |done + [id]| :: NameOf(t, decls, (done + [id])[k]).Just?
    ensures var name := NameOf(t, decls, id).value;
            if Known(entries, hash(name), name) then
              N.FirstClash(hash, NamesOf(t, decls, done + [id]), FormsOf(t, decls, done + [id]), 0) != -1
            else
              Entered(t, hash, decls, done + [id], entries + [N.Entry(hash(name), StoredForm(t, id, name))])
  {
    hide StoredForm;
    hide NameOf;
    hide Known;
    var more, name, n := done + [id], NameOf(t, decls, id).value, |done|;
    assert forall k | 0 <= k < n :: more[k] == done[k];
    var names, forms := NamesOf(t, decls, more), FormsOf(t, decls, more);
    var olds, oldForms := NamesOf(t, decls, done), FormsOf(t, decls, done);
    assert names[n] == name && names[..n] == olds && forms[..n] == oldForms;
    N.ClashIsMatch(hash, names, forms, n, entries);
    KnownIs(entries, hash(name), name);
    hide N.Clashes;
    assert Known(entries, hash(name), name) <==> N.Clashes(hash, names, forms, n);
    if !Known(entries, hash(name), name) {
      forall j | 0 <= j < n
        ensures !N.Clashes(hash, names, forms, j)
      {
        assert !N.Clashes(hash, olds, oldForms, j);
        ClashIsEarlier(hash, olds, oldForms, names, forms, j);
      }
    }
  }

  lemma {:induction false} NextEntered(t: Tables, hash: string -> nat, decls: seq<S.Decl>, list: seq<nat>, i: nat,
                                       entries: seq<N.Entry>)
    requires i + 2 <= |list| && i % 2 == 0 && |list| % 2 == 0 && IsPrefixed(t, list[i])
    requires Entered(t, hash, decls, PrefixedIn(t, list[..i]), entries)
    ensures var name, all := NameOf(t, decls, list[i]), PrefixedIn(t, list);
            && (name.Nothing? ==> ExpandError(t, hash, decls, all) == UnboundPrefix)
            && (name.Just? && Known(entries, hash(name.value), name.value) ==>
                  ExpandError(t, hash, decls, all) == DuplicateAttribute)
            && (name.Just? && !Known(entries, hash(name.value), name.value) ==>
                  Entered(t, hash, decls, PrefixedIn(t, list[..i + 2]),
                          entries + [N.Entry(hash(name.value), StoredForm(t, list[i], name.value))]))
  {
    hide PrefixedIn;
    hide BoundPart;
    hide Known;
    var id, done, all := list[i], PrefixedIn(t, list[..i]), PrefixedIn(t, list);
    NextPrefixed(t, list, i);
    PrefixedSplit(t, list, i + 2);
    assert done + [id] <= all && all[|done|] == (done + [id])[|done|] == id;
    var name := NameOf(t, decls, id);
    BoundIs(t, decls, done, all);
    if name.Just? {
      EntersOne(t, hash, decls, done, entries, id);
      if Known(entries, hash(name.value), name.value) {
        BoundIs(t, decls, done + [id], all);
        var bound, first := BoundPart(t, decls, all), done + [id];
        PartsOf(t, decls, first, bound);
        ClashStays(hash, NamesOf(t, decls, first), FormsOf(t, decls, first), NamesOf(t, decls, bound),
                   FormsOf(t, decls, bound));
      }
    }
  }

  /** The next word, its flag, and what its name does to the table. */
  lemma {:induction false} ExpandedIs(n: Naming, list: seq<nat>, words: seq<nat>, flags: seq<nat>, i: nat, left: nat,
                                   entries: seq<N.Entry>, declarations: seq<nat>, before: seq<PoolString>,
                                   pool: seq<PoolString>)
    requires ExpandedSoFar(n, list, words, flags, i, left, entries, declarations, before, pool)
    requires i < |list| && GoodList(n.t, list) && |flags| == n.t.ids
    ensures words[i] == list[i] < |flags| && i % 2 == 0 && |list| % 2 == 0 && i + 2 <= |list|
    ensures left == Prefixes(n.t, list, i) > 0 && |entries| == |PrefixedIn(n.t, list[..i])|
    ensures flags[list[i]] == 2 <==> IsPrefixed(n.t, list[i])
    ensures var name, all := NameOf(n.t, n.decls, list[i]), PrefixedIn(n.t, list);
            IsPrefixed(n.t, list[i]) ==>
              && (name.Nothing? ==> ExpandError(n.t, n.hash, n.decls, all) == UnboundPrefix)
              && (name.Just? && Known(entries, n.hash(name.value), name.value) ==>
                    ExpandError(n.t, n.hash, n.decls, all) == DuplicateAttribute)
  {
    hide Pending;
    hide Prefixes;
    hide PrefixedIn;
    hide IsExpanded;
    hide Entered;
    hide ExpandError;
    assert words[i] == words[i..|list|][0] == list[i..][0];
    EnteredCount(n.t, n.hash, n.decls, PrefixedIn(n.t, list[..i]), entries);
    if IsPrefixed(n.t, list[i]) {
      NextEntered(n.t, n.hash, n.decls, list, i, entries);
    }
  }

  lemma {:induction false} EnteredCount(t: Tables, hash: string -> nat, decls: seq<S.Decl>, done: seq<nat>,
                                        entries: seq<N.Entry>)
    requires Entered(t, hash, decls, done, entries)
    ensures |entries| == |done|
  {
  }

  /** What one turn of the expanding loop does to a word, its flag, the pool and the table. */
  ghost predicate Turn(n: Naming, list: seq<nat>, was: seq<nat>, words: seq<nat>, i: nat, entries: seq<N.Entry>,
                       more: seq<N.Entry>, stock: seq<PoolString>, pool: seq<PoolString>)
    requires i < |list|
  {
    if IsPrefixed(n.t, list[i]) then
      && i < |was| && NameOf(n.t, n.decls, list[i]).Just?
      && var name := NameOf(n.t, n.decls, list[i]).value;
      && !Known(entries, n.hash(name), name)
      && pool == stock + [PoolString(n.frontOf(|stock|), StoredForm(n.t, list[i], name))]
      && words == was[i := n.t.ids + |stock|]
      && more == entries + [N.Entry(n.hash(name), StoredForm(n.t, list[i], name))]
    else
      words == was && pool == stock && more == entries
  }

  lemma {:induction false} OneExpanded(n: Naming, list: seq<nat>, was: seq<nat>, words: seq<nat>, marks: seq<nat>,
                                       flags: seq<nat>, i: nat, left: nat, entries: seq<N.Entry>, more: seq<N.Entry>,
                                       declarations: seq<nat>, before: seq<PoolString>, stock: seq<PoolString>,
                                       pool: seq<PoolString>)
    requires i < |list| && GoodList(n.t, list) && |marks| == n.t.ids
    requires ExpandedSoFar(n, list, was, marks, i, left, entries, declarations, before, stock)
    requires list[i] < |marks| && flags == marks[list[i] := 0]
    requires Turn(n, list, was, words, i, entries, more, stock, pool)
    ensures var rest := left - if IsPrefixed(n.t, list[i]) then 1 else 0;
            && rest == Prefixes(n.t, list, i + 2) >= 0
            && (rest > 0 ==> ExpandedSoFar(n, list, words, flags, i + 2, rest, more, declarations, before, pool))
            && (rest == 0 ==> ExpandedAll(n, list, words, flags, i, declarations, before, pool)
                              && i < |words| && words[i] == n.t.ids + |pool| - 1 && |pool| > |before|)
  {
    hide Pending;
    hide Prefixes;
    hide PrefixedIn;
    hide IsExpanded;
    hide Entered;
    hide ExpandError;
    hide Right;
    hide Known;
    hide NameOf;
    GoodAt(n.t, list, i);
    NextName(n.t, list, i);
    NextPrefixed(n.t, list, i);
    ClearOne(marks, list, i, declarations);
    KeepsRight(n.t, marks, list, i);
    if IsPrefixed(n.t, list[i]) {
      NextEntered(n.t, n.hash, n.decls, list, i, entries);
    } else {
      assert PrefixedIn(n.t, list[..i]) + [] == PrefixedIn(n.t, list[..i]);
    }
    assert was[i..|list|][1] == list[i..][1] && was[i..|list|][0] == list[i..][0];
    assert was[i..|list|][2..] == words[i + 2..|list|] && list[i..][2..] == list[i + 2..];
    assert words[..i] == was[..i];
    NextExpanded(n.t, n.decls, list, was[..i], words, i, stock, pool);
    if Prefixes(n.t, list, i + 2) == 0 {
      PendingEarlier(flags, list, i, declarations);
      NoneLeft(n.t, list, i + 2);
      RestIsExpanded(n.t, n.decls, list, words, i + 2, pool);
      NoMorePrefixed(n.t, list, i + 2);
      EnteredAll(n.t, n.hash, n.decls, PrefixedIn(n.t, list), more);
    }
  }

  /** What ExpandedAll says when it is hidden. */
  lemma {:induction false} AllIs(n: Naming, list: seq<nat>, words: seq<nat>, flags: seq<nat>, i: nat,
                                 declarations: seq<nat>, before: seq<PoolString>, pool: seq<PoolString>)
    requires ExpandedAll(n, list, words, flags, i, declarations, before, pool) && |flags| == n.t.ids
    ensures |list| <= |words| && i % 2 == 0 && IsExpanded(n.t, n.decls, list, words[..|list|], pool)
    ensures ExpandError(n.t, n.hash, n.decls, PrefixedIn(n.t, list)).None?
    ensures Pending(flags, list, i, declarations) && Appended(before, pool, n.frontOf)
    ensures i < |list| && IsPrefixed(n.t, list[i]) ==> flags[list[i]] == 0
    ensures forall k | i < k < |list| && k % 2 == 0 :: !IsPrefixed(n.t, list[k])
  {
  }

  /** The byte in front of a string does not belong to it. */
  lemma {:induction false} FrontsOnly(t: Tables, decls: seq<S.Decl>, list: seq<nat>, words: seq<nat>,
                                      before: seq<PoolString>, pool: seq<PoolString>, frontOf: nat -> nat)
    requires |before| < |pool| && Appended(before, pool, frontOf) && IsExpanded(t, decls, list, words, pool)
    ensures before <= LastCleared(pool) && IsExpanded(t, decls, list, words, LastCleared(pool))
    ensures var p := LastCleared(pool);
            forall k | |before| <= k < |p| :: p[k].front == if k == |p| - 1 then 0 else frontOf(k)
  {
    var p := LastCleared(pool);
    forall k | 0 <= k < |list|
      ensures IsExpandedWord(t, decls, list, words[k], p, k)
    {
      assert IsExpandedWord(t, decls, list, words[k], pool, k);
    }
  }

  lemma {:induction false} PartsOf(t: Tables, decls: seq<S.Decl>, first: seq<nat>, bound: seq<nat>)
    requires first <= bound && forall k | 0 <= k < |bound| :: NameOf(t, decls, bound[k]).Just?
    ensures forall k | 0 <= k < |first| :: NameOf(t, decls, first[k]).Just?
    ensures NamesOf(t, decls, first) <= NamesOf(t, decls, bound) && FormsOf(t, decls, first) <= FormsOf(t, decls, bound)
  {
    assert forall k | 0 <= k < |first| :: first[k] == bound[k];
  }

  lemma {:induction false} EnteredAll(t: Tables, hash: string -> nat, decls: seq<S.Decl>, ids: seq<nat>,
                                      entries: seq<N.Entry>)
    requires Entered(t, hash, decls, ids, entries)
    ensures ExpandError(t, hash, decls, ids).None?
  {
    BoundIs(t, decls, ids, ids);
  }

  lemma {:induction false} StartExpanding(t: Tables, hash: string -> nat, decls: seq<S.Decl>, list: seq<nat>,
                                          pool: seq<PoolString>)
    ensures PrefixedIn(t, []) == [] && Entered(t, hash, decls, [], []) && IsExpanded(t, decls, [], [], pool)
  {
  }

  lemma {:induction false} NoneExpanded(t: Tables, hash: string -> nat, decls: seq<S.Decl>, list: seq<nat>,
                                        pool: seq<PoolString>)
    requires |list| % 2 == 0 && Prefixes(t, list, 0) == 0
    ensures forall k | 0 <= k < |list| && k % 2 == 0 :: !IsPrefixed(t, list[k])
    ensures IsExpanded(t, decls, list, list, pool) && ExpandError(t, hash, decls, PrefixedIn(t, list)).None?
  {
    hide ExpandError;
    NoneLeft(t, list, 0);
    NoMorePrefixed(t, list, 0);
    StartExpanding(t, hash, decls, list, pool);
    EnteredAll(t, hash, decls, [], []);
    assert list[..0] == [];
  }

  // ----- the names of a list -----

  lemma {:induction false} NamesAt(ws: seq<nat>)
    requires |ws| % 2 == 0
    ensures |NamesIn(ws)| * 2 == |ws| && forall k | 0 <= k < |NamesIn(ws)| :: NamesIn(ws)[k] == ws[2 * k]
    decreases |ws|
  {
    if |ws| >= 2 {
      NamesAt(ws[..|ws| - 2]);
    }
  }

  lemma {:induction false} NamesJoin(a: seq<nat>, b: seq<nat>)
    requires |a| % 2 == 0 && |b| % 2 == 0
    ensures NamesIn(a + b) == NamesIn(a) + NamesIn(b)
    decreases |b|
  {
    if |b| == 0 {
      assert a + b == a;
    } else {
      var n := |b| - 2;
      NamesJoin(a, b[..n]);
      assert (a + b)[..|a + b| - 2] == a + b[..n];
      assert (a + b)[|a + b| - 2] == b[n];
    }
  }

  lemma {:induction false} ListedNames(t: Tables, was: seq<nat>, i: nat)
    requires 4 * i <= |was| && Distinct(IdsOf(t, Records(was, i)))
    ensures Distinct(NamesIn(Listed(t, Records(was, i))))
    ensures forall x | x in NamesIn(Listed(t, Records(was, i))) :: x in IdsOf(t, Records(was, i))
    decreases i
  {
    hide NamesIn;
    hide Listed;
    NoNames([]);
    if i == 0 {
      ListedNothing(t, Records(was, 0));
    } else {
      OneMoreListed(t, was, i - 1);
      var ids, r := IdsOf(t, Records(was, i - 1)), RecordAt(was, i - 1);
      DistinctInit(ids, t.idOf(r.name));
      ListedNames(t, was, i - 1);
      NamesMore(Listed(t, Records(was, i - 1)), t.idOf(r.name), StoredWord(t, r));
      StillDistinct(NamesIn(Listed(t, Records(was, i - 1))), t.idOf(r.name));
    }
  }

  lemma {:induction false} ListedNothing(t: Tables, rs: seq<Record>)
    requires |rs| == 0
    ensures Listed(t, rs) == []
  {
  }

  lemma {:induction false} DistinctInit(ids: seq<nat>, id: nat)
    requires Distinct(ids + [id])
    ensures Distinct(ids) && id !in ids
  {
    var all := ids + [id];
    assert all[|ids|] == id;
    forall i, j | 0 <= i < j < |ids|
      ensures ids[i] != ids[j]
    {
      assert all[i] == ids[i] && all[j] == ids[j];
    }
    forall i | 0 <= i < |ids|
      ensures ids[i] != id
    {
      assert all[i] == ids[i];
    }
  }

  lemma {:induction false} DefaultedNames(t: Tables, ds: seq<Default>, i: nat, specified: seq<nat>)
    requires GoodDefaults(t, ds) && i <= |ds|
    ensures Distinct(NamesIn(Defaulted(t, ds[..i], specified)))
    ensures forall x | x in NamesIn(Defaulted(t, ds[..i], specified)) :: x !in specified && x < t.ids
    decreases i
  {
    hide NamesIn;
    hide Defaulted;
    hide DefaultDeclared;
    NoDefaults(t, specified);
    if i > 0 {
      hide Distinct;
      DefaultedNames(t, ds, i - 1, specified);
      DefaultNames(t, ds, i - 1, specified);
      OneMoreDefault(t, ds, i - 1, specified);
      var before, d := Defaulted(t, ds[..i - 1], specified), ds[i - 1];
      if Applies(d, specified) {
        NamesMore(before, d.id, d.value.value);
        StillDistinct(NamesIn(before), d.id);
      }
    } else {
      assert ds[..0] == [];
    }
  }

  lemma {:induction false} DistinctJoin(a: seq<nat>, b: seq<nat>)
    requires Distinct(a) && Distinct(b) && forall x | x in b :: x !in a
    ensures Distinct(a + b)
  {
    var s := a + b;
    forall i, j | 0 <= i < j < |s|
      ensures s[i] != s[j]
    {
      if i < |a| <= j {
        assert s[i] in a && s[j] == b[j - |a|] && s[j] in b;
      }
    }
  }

  /** Everything is ready for the flags to be cleared. */
  lemma {:induction false} ReadyToClear(t: Tables, was: seq<nat>, n: nat, ds: seq<Default>, flags: seq<nat>,
                                        list: seq<nat>, declarations: seq<nat>)
    requires GoodTables(t) && GoodDefaults(t, ds) && |flags| == t.ids
    requires 4 * n <= |was| && Distinct(IdsOf(t, Records(was, n)))
    requires list == Listed(t, Records(was, n)) + Defaulted(t, ds, IdsOf(t, Records(was, n)))
    requires FlagsFor(t, flags, IdsOf(t, Records(was, n)) + NamesIn(Defaulted(t, ds, IdsOf(t, Records(was, n)))))
    requires forall x | x in IdsOf(t, Records(was, n)) :: x in declarations || x in NamesIn(Listed(t, Records(was, n)))
    ensures GoodList(t, list) && Pending(flags, list, 0, declarations) && Right(t, flags, list, 0)
  {
    hide Records;
    hide Distinct;
    hide NamesIn;
    hide Listed;
    hide Defaulted;
    var ids := IdsOf(t, Records(was, n));
    var own, more := Listed(t, Records(was, n)), Defaulted(t, ds, ids);
    ListedNames(t, was, n);
    assert ds[..|ds|] == ds;
    DefaultedNames(t, ds, |ds|, ids);
    NamesJoin(own, more);
    DistinctJoin(NamesIn(own), NamesIn(more));
    NamesAreGood(t, list);
    StillPending(flags, ids, own, more, declarations);
  }

  lemma {:induction false} NamesAreGood(t: Tables, list: seq<nat>)
    requires |list| % 2 == 0 && Distinct(NamesIn(list)) && forall x | x in NamesIn(list) :: x < t.ids
    ensures GoodList(t, list) && forall k | 0 <= k < |list| && k % 2 == 0 :: list[k] in NamesIn(list)
  {
    hide NamesIn;
    NamesAt(list);
    var names := NamesIn(list);
    assert forall k | 0 <= k < |list| && k % 2 == 0 :: list[k] == names[k / 2] && names[k / 2] in names;
  }

  lemma {:induction false} StillPending(flags: seq<nat>, ids: seq<nat>, own: seq<nat>, more: seq<nat>,
                                        declarations: seq<nat>)
    requires |own| % 2 == 0 && |more| % 2 == 0
    requires forall x | 0 <= x < |flags| && flags[x] != 0 :: x in ids + NamesIn(more)
    requires forall x | x in ids :: x in declarations || x in NamesIn(own)
    ensures Pending(flags, own + more, 0, declarations)
  {
    hide NamesIn;
    var list := own + more;
    NamesJoin(own, more);
    NamesAt(list);
    var names := NamesIn(list);
    forall x | 0 <= x < |flags| && flags[x] != 0 && x !in declarations
      ensures exists k :: 0 <= k < |list| && k % 2 == 0 && list[k] == x
    {
      assert x in ids + NamesIn(more) && x in names;
      var j :| 0 <= j < |names| && names[j] == x;
      assert list[2 * j] == x;
    }
  }

  // ----- when storeAtts succeeds -----

  predicate AllStored(t: Tables, rs: seq<Record>) {
    forall i | 0 <= i < |rs| :: t.value(rs[i]).Just?
  }

  predicate AllBound(t: Tables, decls: seq<S.Decl>, ids: seq<nat>) {
    forall k | 0 <= k < |ids| :: NameOf(t, decls, ids[k]).Just?
  }

  lemma {:induction false} LastRecord(t: Tables, rs: seq<Record>)
    requires |rs| > 0
    ensures IdsOf(t, rs) == IdsOf(t, rs[..|rs| - 1]) + [t.idOf(rs[|rs| - 1].name)]
    ensures AllStored(t, rs) <==> AllStored(t, rs[..|rs| - 1]) && t.value(rs[|rs| - 1]).Just?
  {
    var before := rs[..|rs| - 1];
    assert forall i | 0 <= i < |before| :: before[i] == rs[i];
  }

  lemma {:induction false} DistinctLast(ids: seq<nat>, id: nat)
    ensures Distinct(ids + [id]) <==> Distinct(ids) && id !in ids
  {
    if Distinct(ids + [id]) {
      DistinctInit(ids, id);
    }
  }

  lemma {:induction false} AllGoodLast(declared: seq<S.Decl>, d: S.Decl)
    ensures S.AllGood(declared + [d]) <==> S.AllGood(declared) && !S.Refused(d)
  {
    var more := declared + [d];
    assert more[|declared|] == d && forall i | 0 <= i < |declared| :: more[i] == declared[i];
  }

  lemma {:induction false} SpecifiedExactly(t: Tables, rs: seq<Record>)
    ensures SpecifiedError(t, rs).None? <==>
            Distinct(IdsOf(t, rs)) && AllStored(t, rs) && S.AllGood(Declared(t, rs))
  {
    hide Distinct;
    hide AllStored;
    hide S.AllGood;
    if |rs| == 0 {
      NothingSpecified(t, rs);
    } else {
      var before, r := rs[..|rs| - 1], rs[|rs| - 1];
      SpecifiedExactly(t, before);
      LastRecord(t, rs);
      DistinctLast(IdsOf(t, before), t.idOf(r.name));
      AllGoodLast(Declared(t, before), DeclarationOf(t, t.idOf(r.name), StoredWord(t, r)));
    }
  }

  lemma {:induction false} NothingSpecified(t: Tables, rs: seq<Record>)
    requires |rs| == 0
    ensures Distinct(IdsOf(t, rs)) && AllStored(t, rs) && S.AllGood(Declared(t, rs))
  {
  }

  lemma {:induction false} AllBoundIs(t: Tables, decls: seq<S.Decl>, ids: seq<nat>)
    ensures AllBound(t, decls, ids) <==> BoundPart(t, decls, ids) == ids
  {
    if AllBound(t, decls, ids) {
      BoundIs(t, decls, ids, ids);
    }
  }

  /**
   * storeAtts succeeds exactly when no name occurs twice, every value can be stored, no declaration
   * takes the binding of a named prefix away, every prefix used is bound by the declarations then in
   * force, and no expanded name clashes with an earlier one.
   */
  lemma {:induction false} SucceedsExactly(t: Tables, hash: string -> nat, decls: seq<S.Decl>, rs: seq<Record>,
                                           ds: seq<Default>)
    ensures var d, ids := InForce(t, decls, rs, ds), PrefixedIn(t, WholeList(t, rs, ds));
            StoreError(t, hash, decls, rs, ds).None? <==>
              && Distinct(IdsOf(t, rs)) && AllStored(t, rs)
              && S.AllGood(Declared(t, rs)) && S.AllGood(DefaultDeclared(t, ds, IdsOf(t, rs)))
              && AllBound(t, d, ids) && N.FirstClash(hash, NamesOf(t, d, ids), FormsOf(t, d, ids), 0) == -1
  {
    hide Distinct;
    hide AllStored;
    hide S.AllGood;
    hide Declared;
    hide DefaultDeclared;
    hide PrefixedIn;
    var d, ids := InForce(t, decls, rs, ds), PrefixedIn(t, WholeList(t, rs, ds));
    SpecifiedExactly(t, rs);
    AllBoundIs(t, d, ids);
  }

  // ----- what the list says -----

  /** Somewhere in a list the name `id` stands in front of the value `value`. */
  ghost predicate Lists(ws: seq<nat>, id: nat, value: nat) {
    exists k | 0 <= k && 2 * k + 1 < |ws| :: ListsAt(ws, k, id, value)
  }

  predicate ListsAt(ws: seq<nat>, k: nat, id: nat, value: nat)
    requires 2 * k + 1 < |ws|
  {
    ws[2 * k] == id && ws[2 * k + 1] == value
  }

  lemma {:induction false} ListsAppended(a: seq<nat>, b: seq<nat>, id: nat, value: nat)
    requires |a| % 2 == 0
    ensures Lists(a + b, id, value) <==> Lists(a, id, value) || Lists(b, id, value)
  {
    var ws, half := a + b, |a| / 2;
    if Lists(ws, id, value) {
      var k: nat :| 2 * k + 1 < |ws| && ListsAt(ws, k, id, value);
      if k < half {
        assert ListsAt(a, k, id, value);
      } else {
        assert ListsAt(b, k - half, id, value);
      }
    }
    if Lists(a, id, value) {
      var k: nat :| 2 * k + 1 < |a| && ListsAt(a, k, id, value);
      assert ListsAt(ws, k, id, value);
    }
    if Lists(b, id, value) {
      var k: nat :| 2 * k + 1 < |b| && ListsAt(b, k, id, value);
      assert ListsAt(ws, half + k, id, value);
    }
  }

  lemma {:induction false} ListsOne(id: nat, value: nat, x: nat, y: nat)
    ensures Lists([x, y], id, value) <==> id == x && value == y
    ensures !Lists([], id, value)
  {
    assert ListsAt([x, y], 0, id, value) <==> id == x && value == y;
  }

  /** The attribute is specified with this value, and is no declaration. */
  predicate SpecifiedAs(t: Tables, r: Record, id: nat, value: nat) {
    t.idOf(r.name) == id && !t.kindOf(id).Declaration? && t.value(r) == Just(value)
  }

  lemma {:induction false} ListedExactly(t: Tables, rs: seq<Record>, id: nat, value: nat)
    requires forall i | 0 <= i < |rs| :: t.value(rs[i]).Just?
    ensures Lists(Listed(t, rs), id, value) <==> exists i | 0 <= i < |rs| :: SpecifiedAs(t, rs[i], id, value)
    decreases |rs|
  {
    hide Lists;
    if |rs| == 0 {
      ListsOne(id, value, 0, 0);
    } else {
      var r, before := rs[|rs| - 1], rs[..|rs| - 1];
      ListedExactly(t, before, id, value);
      ListsAppended(Listed(t, before), [t.idOf(r.name), StoredWord(t, r)], id, value);
      ListsOne(id, value, t.idOf(r.name), StoredWord(t, r));
      if i :| 0 <= i < |rs| && SpecifiedAs(t, rs[i], id, value) {
        assert i < |before| ==> SpecifiedAs(t, before[i], id, value);
      }
      if i :| 0 <= i < |before| && SpecifiedAs(t, before[i], id, value) {
        assert SpecifiedAs(t, rs[i], id, value);
      }
    }
  }

  predicate DefaultsTo(t: Tables, d: Default, specified: seq<nat>, id: nat, value: nat) {
    d.id == id && id !in specified && !t.kindOf(id).Declaration? && d.value == Just(value)
  }

  lemma {:induction false} DefaultedExactly(t: Tables, ds: seq<Default>, specified: seq<nat>, id: nat, value: nat)
    ensures Lists(Defaulted(t, ds, specified), id, value) <==>
            exists i | 0 <= i < |ds| :: DefaultsTo(t, ds[i], specified, id, value)
    decreases |ds|
  {
    hide Lists;
    if |ds| == 0 {
      ListsOne(id, value, 0, 0);
    } else {
      var d, before := ds[|ds| - 1], ds[..|ds| - 1];
      DefaultedExactly(t, before, specified, id, value);
      var v := if d.value.Just? then d.value.value else 0;
      ListsAppended(Defaulted(t, before, specified), [d.id, v], id, value);
      ListsOne(id, value, d.id, v);
      if i :| 0 <= i < |ds| && DefaultsTo(t, ds[i], specified, id, value) {
        assert i < |before| ==> DefaultsTo(t, before[i], specified, id, value);
      }
      if i :| 0 <= i < |before| && DefaultsTo(t, before[i], specified, id, value) {
        assert DefaultsTo(t, ds[i], specified, id, value);
      }
    }
  }

  /**
   * The application is given exactly the attributes that are no declarations: those specified, with
   * the values stored for them, and those with a default that are not specified.
   */
  lemma {:induction false} ListHasExactly(t: Tables, rs: seq<Record>, ds: seq<Default>, id: nat, value: nat)
    requires forall i | 0 <= i < |rs| :: t.value(rs[i]).Just?
    ensures Lists(WholeList(t, rs, ds), id, value) <==>
            || (exists i | 0 <= i < |rs| :: SpecifiedAs(t, rs[i], id, value))
            || (exists i | 0 <= i < |ds| :: DefaultsTo(t, ds[i], IdsOf(t, rs), id, value))
  {
    hide Lists;
    ListedExactly(t, rs, id, value);
    DefaultedExactly(t, ds, IdsOf(t, rs), id, value);
    ListsAppended(Listed(t, rs), Defaulted(t, ds, IdsOf(t, rs)), id, value);
  }

  /** The strings of a prefixed attribute contain no zero. */
  predicate NoNulIn(t: Tables, uri: string, id: nat) {
    && S.NoNul(uri) && S.NoNul(t.style.separator) && |t.style.separator| <= 1
    && S.NoNul(t.localOf(id)) && S.NoNul(t.style.prefixName(t.prefixOf(id)))
  }

  /** A text whose first zero stands behind `name`, or that is `name`. */
  lemma {:induction false} ReadsUpToZero(text: string, name: string, rest: string)
    requires S.NoNul(name) && text == name + rest && (rest == "" || rest[0] == '\0')
    ensures S.CString(text) == name
    decreases |name|
  {
    if |name| > 0 {
      assert text[1..] == name[1..] + rest;
      ReadsUpToZero(text[1..], name[1..], rest);
    }
  }

  /**
   * The name handed to the application for a prefixed attribute is put together like that of an
   * element: the URI of the innermost declaration of its prefix, the separator, the local part, and
   * for triplets the separator and the prefix.
   */
  lemma {:induction false} AttributeNamesAreFull(t: Tables, decls: seq<S.Decl>, list: seq<nat>, words: seq<nat>,
                                                 pool: seq<PoolString>, k: nat)
    requires IsExpanded(t, decls, list, words, pool)
    requires k < |list| && k % 2 == 0 && IsPrefixed(t, list[k]) && t.prefixOf(list[k]) != 0
    requires S.Innermost(decls, t.prefixOf(list[k])).Just? ==>
               NoNulIn(t, S.Innermost(decls, t.prefixOf(list[k])).value, list[k])
    ensures var uri, prefix, local := S.Innermost(decls, t.prefixOf(list[k])), t.prefixOf(list[k]), t.localOf(list[k]);
            && uri.Just? && t.ids <= words[k] < t.ids + |pool|
            && var text := pool[words[k] - t.ids].text;
            && S.CString(text) == S.FullName(t.style, uri.value, prefix, local)
            && (!t.style.triplets ==> text == uri.value + t.style.separator + local)
            && (t.style.triplets && t.style.separator != "" ==>
                  text == uri.value + t.style.separator + (local + (t.style.separator + t.style.prefixName(prefix))))
  {
    hide S.CString;
    hide S.Innermost;
    assert IsExpandedWord(t, decls, list, words[k], pool, k);
    var uri, prefix, local := S.Innermost(decls, t.prefixOf(list[k])).value, t.prefixOf(list[k]), t.localOf(list[k]);
    var name, text := S.FullName(t.style, uri, prefix, local), pool[words[k] - t.ids].text;
    var short := uri + t.style.separator + local;
    assert uri + t.style.separator + (local + "") == short;
    if t.style.triplets && t.style.separator == "" {
      assert text == name + (['\0'] + t.style.prefixName(prefix));
      ReadsUpToZero(text, name, ['\0'] + t.style.prefixName(prefix));
    } else {
      assert t.style.triplets ==> text == uri + t.style.separator + (local + (t.style.separator + t.style.prefixName(prefix)));
      assert text == name + "";
      ReadsUpToZero(text, name, "");
    }
  }

  /** Two attributes with the same expanded name are never both accepted, whatever the hash function. */
  lemma {:induction false} ExpandedNamesDiffer(t: Tables, hash: string -> nat, decls: seq<S.Decl>, rs: seq<Record>,
                                               ds: seq<Default>)
    requires StoreError(t, hash, decls, rs, ds).None?
    ensures var d, ids := InForce(t, decls, rs, ds), PrefixedIn(t, WholeList(t, rs, ds));
            AllBound(t, d, ids) && N.Distinct(NamesOf(t, d, ids))
  {
    hide PrefixedIn;
    var d, ids := InForce(t, decls, rs, ds), PrefixedIn(t, WholeList(t, rs, ds));
    SucceedsExactly(t, hash, decls, rs, ds);
    var names, forms := NamesOf(t, d, ids), FormsOf(t, d, ids);
    forall i | 0 <= i < |names|
      ensures names[i] <= forms[i]
    {
    }
    N.NoDuplicateIsMissed(hash, names, forms);
  }
}
