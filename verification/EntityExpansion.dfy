/** Entity expansion in attribute values: cycles, substitution, and the recursive routine.

    Expansion keeps the set of open entities only to stop at a cycle: when there is none it is
    plain substitution, and a recursion error is reported exactly when there is one. */
module EntityExpansion {
  import opened Bytes
  import opened Characters
  import opened CharRefs
  import opened MarkupMachine
  import opened AttributeTokens
  import opened AttributeValues

  /** The entities a text refers to, up to its end or the first place that cannot be read. */
  function Refs(dtd: Dtd, enc: Encoding, text: seq<Byte>, ptr: nat): (names: set<EntityName>)
    requires ptr <= |text| && Proper(enc, text, ptr)
    ensures names <= dtd.entities.Keys
    decreases |text| - ptr
  {
    PieceAdvances(dtd, enc, text, ptr);
    var p := PieceAt(dtd, enc, text, ptr);
    if p.End? then {}
    else if p.Reference? then {p.name} + Refs(dtd, enc, text, p.next)
    else Refs(dtd, enc, text, NextOf(p))
  }

  /** A chain of references: the first name in the text, each next one in the entity before it. */
  ghost predicate Chain(dtd: Dtd, enc: Encoding, text: seq<Byte>, ptr: nat, names: seq<EntityName>)
    requires ptr <= |text| && Proper(enc, text, ptr) && ProperDtd(dtd)
    decreases |names|
  {
    |names| > 0 ==>
      && names[0] in Refs(dtd, enc, text, ptr)
      && (|names| > 1 ==>
            && dtd.entities[names[0]].text.Just?
            && Chain(dtd, dtd.internal, dtd.entities[names[0]].text.value, 0, names[1..]))
  }

  predicate Repeats(names: seq<EntityName>) {
    exists i, j :: 0 <= i < j < |names| && names[i] == names[j]
  }

  /** The chain comes back to one of its own names, or to an entity that is open already. */
  predicate ComesBack(open: set<EntityName>, names: seq<EntityName>) {
    Repeats(names) || exists n | n in names :: n in open
  }

  /** The text can reach a reference cycle, be it through the entities it stands in. */
  ghost predicate HasCycle(dtd: Dtd, open: set<EntityName>, enc: Encoding, text: seq<Byte>)
    requires Proper(enc, text, 0) && ProperDtd(dtd)
  {
    exists names :: Chain(dtd, enc, text, 0, names) && ComesBack(open, names)
  }

  /** A text that expands refers only to closed entities that expand themselves. */
  lemma {:induction false} RefExpands(dtd: Dtd, open: set<EntityName>, enc: Encoding, text: seq<Byte>, ptr: nat,
                                      n: EntityName)
    requires ptr <= |text| && Proper(enc, text, ptr) && ProperDtd(dtd)
    requires Expansion(dtd, open, enc, text, ptr).error.None? && n in Refs(dtd, enc, text, ptr)
    ensures n in dtd.entities && n !in open && dtd.entities[n].text.Just?
    ensures Expansion(dtd, open + {n}, dtd.internal, dtd.entities[n].text.value, 0).error.None?
    decreases |text| - ptr
  {
    hide PieceAt;
    hide Proper;
    PieceAdvances(dtd, enc, text, ptr);
    var p := PieceAt(dtd, enc, text, ptr);
    if !p.End? && !(p.Reference? && p.name == n) {
      RefExpands(dtd, open, enc, text, NextOf(p), n);
    }
  }

  /** No chain from a text that expands meets an open entity or itself. */
  lemma {:induction false} ChainsAreFree(dtd: Dtd, open: set<EntityName>, enc: Encoding, text: seq<Byte>, ptr: nat,
                                         names: seq<EntityName>)
    requires ptr <= |text| && Proper(enc, text, ptr) && ProperDtd(dtd)
    requires Expansion(dtd, open, enc, text, ptr).error.None? && Chain(dtd, enc, text, ptr, names)
    ensures !Repeats(names) && forall n | n in names :: n !in open
    decreases |names|
  {
    hide Expansion;
    hide Refs;
    hide Proper;
    if |names| > 0 {
      var n, rest := names[0], names[1..];
      RefExpands(dtd, open, enc, text, ptr, n);
      if |rest| > 0 {
        ChainsAreFree(dtd, open + {n}, dtd.internal, dtd.entities[n].text.value, 0, rest);
      }
      assert forall m | m in names :: m == n || m in rest;
      assert forall j | 0 < j < |names| :: names[j] == rest[j - 1] && rest[j - 1] in rest;
      forall i, j | 0 <= i < j < |names|
        ensures names[i] != names[j]
      {
        if i > 0 {
          assert names[i] == rest[i - 1] && names[j] == rest[j - 1];
        }
      }
    }
  }

  /** A recursion error has a chain to show for it: it ends in an open entity, or repeats. */
  lemma {:induction false} RecursionHasChain(dtd: Dtd, open: set<EntityName>, enc: Encoding, text: seq<Byte>, ptr: nat)
    returns (names: seq<EntityName>)
    requires ptr <= |text| && Proper(enc, text, ptr) && ProperDtd(dtd)
    requires Expansion(dtd, open, enc, text, ptr).error.RecursiveEntityRef?
    ensures |names| > 0 && Chain(dtd, enc, text, ptr, names)
    ensures names[|names| - 1] in open || Repeats(names)
    decreases dtd.entities.Keys - open, |text| - ptr
  {
    hide PieceAt;
    hide Proper;
    PieceAdvances(dtd, enc, text, ptr);
    var p := PieceAt(dtd, enc, text, ptr);
    if p.Reference? && Refusal(dtd, open, p.name).RecursiveEntityRef? {
      names := [p.name];
    } else if p.Reference? && RecursionInside(dtd, open, p.name) {
      var inner := RecursionHasChain(dtd, open + {p.name}, dtd.internal, dtd.entities[p.name].text.value, 0);
      names := [p.name] + inner;
      ChainPrefixed(dtd, enc, text, ptr, p.name, inner);
      LastOf(open, p.name, inner);
    } else {
      names := RecursionHasChain(dtd, open, enc, text, NextOf(p));
      ChainEarlier(dtd, enc, text, ptr, names);
    }
  }

  predicate RecursionInside(dtd: Dtd, open: set<EntityName>, name: EntityName)
    requires ProperDtd(dtd)
  {
    && name in dtd.entities && Refusal(dtd, open, name).None?
    && Expansion(dtd, open + {name}, dtd.internal, dtd.entities[name].text.value, 0).error.RecursiveEntityRef?
  }

  lemma {:induction false} ChainPrefixed(dtd: Dtd, enc: Encoding, text: seq<Byte>, ptr: nat, name: EntityName,
                                         inner: seq<EntityName>)
    requires ptr <= |text| && Proper(enc, text, ptr) && ProperDtd(dtd)
    requires name in Refs(dtd, enc, text, ptr) && dtd.entities[name].text.Just?
    requires Chain(dtd, dtd.internal, dtd.entities[name].text.value, 0, inner)
    ensures Chain(dtd, enc, text, ptr, [name] + inner)
  {
    hide Refs;
    hide Proper;
    assert ([name] + inner)[1..] == inner;
  }

  lemma {:induction false} ChainEarlier(dtd: Dtd, enc: Encoding, text: seq<Byte>, ptr: nat, names: seq<EntityName>)
    requires ptr <= |text| && Proper(enc, text, ptr) && ProperDtd(dtd)
    requires !PieceAt(dtd, enc, text, ptr).End?
    requires NextOf(PieceAt(dtd, enc, text, ptr)) <= |text| && Proper(enc, text, NextOf(PieceAt(dtd, enc, text, ptr)))
    requires Chain(dtd, enc, text, NextOf(PieceAt(dtd, enc, text, ptr)), names)
    ensures Chain(dtd, enc, text, ptr, names)
  {
    hide PieceAt;
    hide Proper;
  }

  lemma {:induction false} LastOf(open: set<EntityName>, name: EntityName, inner: seq<EntityName>)
    requires |inner| > 0 && (inner[|inner| - 1] in open + {name} || Repeats(inner))
    ensures var names := [name] + inner; names[|names| - 1] in open || Repeats(names)
  {
    var names := [name] + inner;
    assert forall i | 0 <= i < |inner| :: names[i + 1] == inner[i];
    if Repeats(inner) {
      var i, j :| 0 <= i < j < |inner| && inner[i] == inner[j];
      assert names[i + 1] == names[j + 1];
    } else if inner[|inner| - 1] == name {
      assert names[0] == names[|names| - 1];
    }
  }

  /** An expansion without an error means there is no cycle; a recursion error means there is one. */
  lemma {:induction false} ErrorsAndCycles(dtd: Dtd, open: set<EntityName>, enc: Encoding, text: seq<Byte>)
    requires Proper(enc, text, 0) && ProperDtd(dtd)
    ensures Expansion(dtd, open, enc, text, 0).error.None? ==> !HasCycle(dtd, open, enc, text)
    ensures Expansion(dtd, open, enc, text, 0).error.RecursiveEntityRef? ==> HasCycle(dtd, open, enc, text)
  {
    hide Proper;
    var e := Expansion(dtd, open, enc, text, 0).error;
    if e.None? {
      forall names | Chain(dtd, enc, text, 0, names)
        ensures !ComesBack(open, names)
      {
        ChainsAreFree(dtd, open, enc, text, 0, names);
      }
    } else if e.RecursiveEntityRef? {
      var names := RecursionHasChain(dtd, open, enc, text, 0);
      assert names[|names| - 1] in names && ComesBack(open, names);
    }
  }

  // ----- texts in which nothing else goes wrong -----

  /** Every token is well formed, and every reference names an internal text entity. */
  predicate Readable(dtd: Dtd, enc: Encoding, text: seq<Byte>, ptr: nat)
    requires ptr <= |text| && Proper(enc, text, ptr)
    decreases |text| - ptr
  {
    PieceAdvances(dtd, enc, text, ptr);
    var p := PieceAt(dtd, enc, text, ptr);
    if p.End? then p.error.None?
    else
      && (p.Reference? ==> !dtd.entities[p.name].notation && dtd.entities[p.name].text.Just?)
      && Readable(dtd, enc, text, NextOf(p))
  }

  /** The text is readable, and so is every entity it can reach. */
  ghost predicate AllReadable(dtd: Dtd, enc: Encoding, text: seq<Byte>, ptr: nat)
    requires ptr <= |text| && Proper(enc, text, ptr) && ProperDtd(dtd)
  {
    && Readable(dtd, enc, text, ptr)
    && forall names | |names| > 0 && Chain(dtd, enc, text, ptr, names) && LastText(dtd, names).Just? ::
         Readable(dtd, dtd.internal, LastText(dtd, names).value, 0)
  }

  function LastText(dtd: Dtd, names: seq<EntityName>): (t: Maybe<seq<Byte>>)
    requires |names| > 0 && ProperDtd(dtd)
    ensures t.Just? ==> Proper(dtd.internal, t.value, 0)
  {
    var n := names[|names| - 1];
    if n in dtd.entities then dtd.entities[n].text else Nothing
  }

  /** Then only a cycle can stop the expansion. */
  lemma {:induction false} OnlyRecursionFails(dtd: Dtd, open: set<EntityName>, enc: Encoding, text: seq<Byte>, ptr: nat)
    requires ptr <= |text| && Proper(enc, text, ptr) && ProperDtd(dtd) && AllReadable(dtd, enc, text, ptr)
    ensures var e := Expansion(dtd, open, enc, text, ptr).error; e.None? || e.RecursiveEntityRef?
    decreases dtd.entities.Keys - open, |text| - ptr
  {
    hide PieceAt;
    hide Proper;
    hide AllReadable;
    ReadableNext(dtd, enc, text, ptr);
    PieceAdvances(dtd, enc, text, ptr);
    var p := PieceAt(dtd, enc, text, ptr);
    if !p.End? {
      OnlyRecursionFails(dtd, open, enc, text, NextOf(p));
      if p.Reference? && p.name !in open {
        OnlyRecursionFails(dtd, open + {p.name}, dtd.internal, dtd.entities[p.name].text.value, 0);
      }
    }
  }

  lemma {:induction false} ReadableNext(dtd: Dtd, enc: Encoding, text: seq<Byte>, ptr: nat)
    requires ptr <= |text| && Proper(enc, text, ptr) && ProperDtd(dtd) && AllReadable(dtd, enc, text, ptr)
    ensures var p := PieceAt(dtd, enc, text, ptr);
            && (p.End? ==> p.error.None?)
            && (!p.End? ==> NextOf(p) <= |text| && Proper(enc, text, NextOf(p)) && AllReadable(dtd, enc, text, NextOf(p)))
            && (p.Reference? ==>
                  && p.name in dtd.entities && !dtd.entities[p.name].notation && dtd.entities[p.name].text.Just?
                  && AllReadable(dtd, dtd.internal, dtd.entities[p.name].text.value, 0))
  {
    hide PieceAt;
    hide Proper;
    PieceAdvances(dtd, enc, text, ptr);
    var p := PieceAt(dtd, enc, text, ptr);
    if !p.End? {
      forall names | |names| > 0 && Chain(dtd, enc, text, NextOf(p), names) && LastText(dtd, names).Just?
        ensures Readable(dtd, dtd.internal, LastText(dtd, names).value, 0)
      {
        ChainEarlier(dtd, enc, text, ptr, names);
      }
    }
    if p.Reference? {
      var body := dtd.entities[p.name].text.value;
      assert Chain(dtd, enc, text, ptr, [p.name]) && LastText(dtd, [p.name]) == Just(body);
      forall names | |names| > 0 && Chain(dtd, dtd.internal, body, 0, names) && LastText(dtd, names).Just?
        ensures Readable(dtd, dtd.internal, LastText(dtd, names).value, 0)
      {
        ChainPrefixed(dtd, enc, text, ptr, p.name, names);
        assert LastText(dtd, [p.name] + names) == LastText(dtd, names);
      }
    }
  }

  // ----- substitution -----

  /** Replaces references by their texts, `depth` levels deep, without looking for cycles. */
  function Substituted(dtd: Dtd, enc: Encoding, text: seq<Byte>, ptr: nat, depth: nat): seq<Byte>
    requires ptr <= |text| && Proper(enc, text, ptr) && ProperDtd(dtd)
    decreases depth, |text| - ptr
  {
    PieceAdvances(dtd, enc, text, ptr);
    var p := PieceAt(dtd, enc, text, ptr);
    if p.End? then []
    else if p.Put? then p.bytes + Substituted(dtd, enc, text, p.next, depth)
    else if p.Space? then [0x20] + Substituted(dtd, enc, text, p.next, depth)
    else if p.Skip? then Substituted(dtd, enc, text, p.next, depth)
    else if depth == 0 || dtd.entities[p.name].text.Nothing? then Substituted(dtd, enc, text, p.next, depth)
    else
      Substituted(dtd, dtd.internal, dtd.entities[p.name].text.value, 0, depth - 1) +
      Substituted(dtd, enc, text, p.next, depth)
  }

  /** An expansion without an error is substitution to any depth the declarations can need. */
  lemma {:induction false} ExpansionSubstitutes(dtd: Dtd, open: set<EntityName>, enc: Encoding, text: seq<Byte>,
                                                ptr: nat, depth: nat)
    requires ptr <= |text| && Proper(enc, text, ptr) && ProperDtd(dtd)
    requires Expansion(dtd, open, enc, text, ptr).error.None? && depth >= |dtd.entities.Keys - open|
    ensures Expansion(dtd, open, enc, text, ptr).value == Substituted(dtd, enc, text, ptr, depth)
    decreases dtd.entities.Keys - open, |text| - ptr
  {
    hide PieceAt;
    hide Proper;
    PieceAdvances(dtd, enc, text, ptr);
    var p := PieceAt(dtd, enc, text, ptr);
    if !p.End? {
      ExpansionSubstitutes(dtd, open, enc, text, NextOf(p), depth);
      if p.Reference? {
        OneFewer(dtd.entities.Keys, open, p.name);
        ExpansionSubstitutes(dtd, open + {p.name}, dtd.internal, dtd.entities[p.name].text.value, 0, depth - 1);
      }
    }
  }

  lemma {:induction false} OneFewer(all: set<EntityName>, open: set<EntityName>, n: EntityName)
    requires n in all && n !in open
    ensures |all - (open + {n})| == |all - open| - 1
  {
    assert all - (open + {n}) == (all - open) - {n};
  }

  /**
   * When every reference names an internal text entity and nothing else is wrong, expansion is
   * substitution, and it fails, with a recursion error, exactly when there is a cycle.  The value
   * may itself stand in the content of open entities.
   */
  lemma {:induction false} ExpansionIsSubstitution(dtd: Dtd, open: set<EntityName>, enc: Encoding, text: seq<Byte>,
                                                   depth: nat)
    requires Proper(enc, text, 0) && ProperDtd(dtd) && AllReadable(dtd, enc, text, 0)
    requires depth >= |dtd.entities.Keys - open|
    ensures var e := Expansion(dtd, open, enc, text, 0);
            && (e.error.RecursiveEntityRef? <==> HasCycle(dtd, open, enc, text))
            && (!HasCycle(dtd, open, enc, text) ==> e == Outcome(None, Substituted(dtd, enc, text, 0, depth)))
  {
    hide Proper;
    hide AllReadable;
    hide HasCycle;
    hide Expansion;
    hide Substituted;
    ErrorsAndCycles(dtd, open, enc, text);
    OnlyRecursionFails(dtd, open, enc, text, 0);
    if Expansion(dtd, open, enc, text, 0).error.None? {
      ExpansionSubstitutes(dtd, open, enc, text, 0, depth);
    }
  }

  // ----- the routine -----

  /** An entity of the document type, with the flag the expansion sets and clears. */
  class Entity {
    const name: EntityName
    const decl: Decl
    var open: bool

    constructor (name: EntityName, decl: Decl)
      ensures this.name == name && this.decl == decl && !open
    {
      this.name := name;
      this.decl := decl;
      open := false;
    }
  }

  /** The parts of the parser the expansion uses; `pool` is the current string of the pool. */
  class AttributeParser {
    const internal: Encoding
    var generalEntities: map<EntityName, Entity>
    var hasParamEntityRefs: bool
    var standalone: bool
    var documentEntity: bool
    var openInternalEntities: bool
    var pool: seq<Byte>

    constructor (internal: Encoding)
    {
      this.internal := internal;
      generalEntities := map[];
      hasParamEntityRefs, standalone, documentEntity, openInternalEntities := false, false, true, false;
      pool := [];
    }

    ghost predicate Valid()
      reads this`generalEntities
    {
      forall n | n in generalEntities ::
        generalEntities[n].name == n && (generalEntities[n].decl.text.Just? ==>
            Proper(internal, generalEntities[n].decl.text.value, 0))
    }

    /**
     * Whether references must be declared, and declared outside parameter entities: no declaration
     * can have been left unread, or the document says that none matters.
     */
    ghost predicate MustBeDeclared(fromProlog: bool)
      reads this`hasParamEntityRefs, this`standalone, this`documentEntity, this`openInternalEntities
    {
      && (fromProlog ==> documentEntity && (standalone ==> !openInternalEntities))
      && (hasParamEntityRefs ==> standalone)
    }

    ghost function Declared(fromProlog: bool): (d: Dtd)
      requires Valid()
      reads this`generalEntities, this`hasParamEntityRefs, this`standalone, this`documentEntity
      reads this`openInternalEntities
      ensures ProperDtd(d) && d.entities.Keys == generalEntities.Keys && d.internal == internal
    {
      Dtd(map n | n in generalEntities :: generalEntities[n].decl, MustBeDeclared(fromProlog), internal)
    }

    ghost function Open(): set<EntityName>
      reads this`generalEntities, generalEntities.Values
    {
      set n | n in generalEntities && generalEntities[n].open
    }

    ghost function Closed(): set<EntityName>
      reads this`generalEntities, generalEntities.Values
    {
      set n | n in generalEntities && !generalEntities[n].open
    }

    /**
     * appendAttributeValue: appends the value to the pool's string, recursing into entities.
     * Whatever it returns, every entity is open exactly if it was open before.
     */
    method AppendAttributeValue(enc: Encoding, isCdata: bool, text: seq<Byte>, fromProlog: bool) returns (error: Error)
      requires Valid() && Proper(enc, text, 0)
      modifies this`pool, generalEntities.Values
      ensures Outcome(error, pool) == Run(Declared(fromProlog), old(Open()), enc, isCdata, text, 0, old(pool))
      ensures Open() == old(Open()) && Closed() == old(Closed())
      ensures Declared(fromProlog) == old(Declared(fromProlog))
      decreases Closed()
    {
      hide Closed;
      hide Blank;
      hide Open;
      hide Declared;
      hide PieceAt;
      hide Proper;
      hide Run;
      ghost var dtd := Declared(fromProlog);
      ghost var open := Open();
      var ptr := 0;
      while true
        invariant ptr <= |text| && Proper(enc, text, ptr)
        invariant Open() == open && Closed() == old(Closed()) && Declared(fromProlog) == dtd
        invariant Run(dtd, open, enc, isCdata, text, 0, old(pool)) == Run(dtd, open, enc, isCdata, text, ptr, pool)
        decreases |text| - ptr
      {
        RunStep(dtd, open, enc, isCdata, text, ptr, pool);
        PieceAdvances(dtd, enc, text, ptr);
        var p := NextPiece(enc, text, ptr, fromProlog);
        if p.End? {
          return p.error;
        } else if p.Put? {
          pool := pool + p.bytes;
        } else if p.Space? {
          AppendSpace(isCdata);
        } else if p.Reference? {
          error := Refer(p.name, isCdata, fromProlog);
          if !error.None? {
            return;
          }
        }
        ptr := NextOf(p);
      }
    }

    /** Appends a space unless it would lead or repeat in a tokenised value. */
    method AppendSpace(isCdata: bool)
      modifies this`pool
      ensures pool == Blank(isCdata, old(pool))
    {
      if isCdata || !(|pool| == 0 || pool[|pool| - 1] == 0x20) {
        pool := pool + [0x20];
      }
    }

    /** A reference to a declared entity. */
    method Refer(name: EntityName, isCdata: bool, fromProlog: bool) returns (error: Error)
      requires Valid() && name in generalEntities
      modifies this`pool, generalEntities.Values
      ensures var dtd, open := Declared(fromProlog), old(Open());
              Outcome(error, pool) ==
              if !Refusal(dtd, open, name).None? then Outcome(Refusal(dtd, open, name), old(pool))
              else Run(dtd, open + {name}, internal, isCdata, dtd.entities[name].text.value, 0, old(pool))
      ensures Open() == old(Open()) && Closed() == old(Closed())
      ensures Declared(fromProlog) == old(Declared(fromProlog))
      decreases Closed(), 1
    {
      hide Proper;
      hide Run;
      var entity := generalEntities[name];
      if entity.open {
        return RecursiveEntityRef;
      }
      if entity.decl.notation {
        return BinaryEntityRef;
      }
      if entity.decl.text.Nothing? {
        return ExternalEntityRef;
      }
      error := ExpandEntity(entity, isCdata, fromProlog);
    }

    /** Opens the entity, appends its text, and closes it again. */
    method ExpandEntity(entity: Entity, isCdata: bool, fromProlog: bool) returns (error: Error)
      requires Valid() && entity.name in generalEntities && generalEntities[entity.name] == entity
      requires !entity.open && entity.decl.text.Just?
      modifies this`pool, generalEntities.Values
      ensures Outcome(error, pool) == Run(Declared(fromProlog), old(Open()) + {entity.name}, internal, isCdata,
                                          entity.decl.text.value, 0, old(pool))
      ensures Open() == old(Open()) && Closed() == old(Closed())
      ensures Declared(fromProlog) == old(Declared(fromProlog))
      decreases Closed(), 0
    {
      hide Declared;
      hide Proper;
      hide Run;
      ghost var before := Open();
      SetOpen(entity, true);
      error := AppendAttributeValue(internal, isCdata, entity.decl.text.value, fromProlog);
      SetOpen(entity, false);
      assert Open() == before + {entity.name} - {entity.name} == before;
    }

    /** Sets the flag of one entity. */
    method SetOpen(entity: Entity, open: bool)
      requires Valid() && entity.name in generalEntities && generalEntities[entity.name] == entity
      modifies entity`open
      ensures Open() == if open then old(Open()) + {entity.name} else old(Open()) - {entity.name}
      ensures Closed() == if open then old(Closed()) - {entity.name} else old(Closed()) + {entity.name}
      ensures entity.open == open
    {
      entity.open := open;
    }

    /** One token of the value: the switch of appendAttributeValue up to the entity itself. */
    method NextPiece(enc: Encoding, text: seq<Byte>, ptr: nat, fromProlog: bool) returns (p: Piece)
      requires Valid() && ptr <= |text| && Proper(enc, text, ptr)
      ensures p == PieceAt(Declared(fromProlog), enc, text, ptr)
    {
      hide IsCharRef;
      hide CharPiece;
      hide EntityPiece;
      hide Tok;
      hide Proper;
      var tok := AttributeValueTok(enc, text, ptr);
      if tok.NoToken? {
        return End(None);
      } else if tok.Invalid? || tok.Partial? {
        return End(InvalidToken);
      } else if tok.TrailingCr? {
        return Space(ptr + 1);
      } else if !tok.Token? {
        return End(UnexpectedState);
      } else if tok.kind.DataChars? {
        return Put(text[ptr..tok.next], tok.next);
      } else if tok.kind.DataNewline? || tok.kind.AttributeValueS? {
        return Space(tok.next);
      }
      TokKinds(enc, text, ptr);
      if tok.kind.CharRef? {
        p := CharacterPiece(text, ptr, tok.next);
      } else {
        p := NamedPiece(text, ptr, tok.next, fromProlog);
      }
    }

    static method CharacterPiece(text: seq<Byte>, ptr: nat, next: nat) returns (p: Piece)
      requires IsCharRef(text, ptr, next)
      ensures p == CharPiece(text, ptr, next)
    {
      hide Utf8;
      hide IsCharRef;
      var n := CharRefNumber(text, ptr, next);
      if n < 0 {
        return End(BadCharRef);
      }
      if n == 0x20 {
        return Space(next);
      }
      CheckIsChar(n as int);
      var buf := new Byte[4];
      var size := XmlUtf8Encode(n as int, buf);
      if size == 0 {
        return End(BadCharRef);
      }
      return Put(buf[..size], next);
    }

    method NamedPiece(text: seq<Byte>, ptr: nat, next: nat, fromProlog: bool) returns (p: Piece)
      requires Valid() && ptr + 2 < next <= |text|
      ensures p == EntityPiece(Declared(fromProlog), text[ptr + 1..next - 1], next)
    {
      hide Predefined;
      var ch := PredefinedEntityName(text, ptr + 1, next - 1);
      var name := text[ptr + 1..next - 1];
      if ch != 0 {
        return Put([ch], next);
      }
      var checkEntityDecl;
      if fromProlog {
        checkEntityDecl := documentEntity && (if standalone then !openInternalEntities else !hasParamEntityRefs);
      } else {
        checkEntityDecl := !hasParamEntityRefs || standalone;
      }
      if checkEntityDecl {
        if name !in generalEntities {
          return End(UndefinedEntity);
        } else if !generalEntities[name].decl.isInternal {
          return End(EntityDeclaredInPE);
        }
      } else if name !in generalEntities {
        return Skip(next);
      }
      return Reference(name, next);
    }

    /** storeAttributeValue: the value and its terminating zero, in an empty string of the pool. */
    method StoreAttributeValue(enc: Encoding, isCdata: bool, text: seq<Byte>, fromProlog: bool) returns (error: Error)
      requires Valid() && Proper(enc, text, 0) && pool == []
      modifies this`pool, generalEntities.Values
      ensures var o := Stored(Declared(fromProlog), old(Open()), enc, isCdata, text);
              error == o.error && (error.None? ==> pool == o.value + [0])
      ensures Open() == old(Open())
    {
      hide Open;
      hide Closed;
      hide Declared;
      hide Proper;
      hide Run;
      error := AppendAttributeValue(enc, isCdata, text, fromProlog);
      if !error.None? {
        return;
      }
      if !isCdata && |pool| > 0 && pool[|pool| - 1] == 0x20 {
        pool := pool[..|pool| - 1];
      }
      pool := pool + [0];
    }
  }

  /** A token of a value that is neither data nor space is a reference. */
  lemma {:induction false} TokKinds(enc: Encoding, text: seq<Byte>, ptr: nat)
    requires ptr <= |text| && Proper(enc, text, ptr)
    ensures var r := Tok(enc, text, ptr);
            r.Token? ==> || r.kind.DataChars? || r.kind.DataNewline? || r.kind.AttributeValueS?
                         || (r.kind.CharRef? && IsCharRef(text, ptr, r.next))
                         || (r.kind.EntityRef? && ptr + 2 < r.next)
  {
    hide TypeOf;
    hide Scan;
    hide IsCharRef;
    hide Proper;
    if ptr < |text| {
      RefKinds(enc, text, ptr);
    }
  }

  /** One step of the routine. */
  lemma {:induction false} RunStep(dtd: Dtd, open: set<EntityName>, enc: Encoding, cdata: bool, text: seq<Byte>,
                                   ptr: nat, out: seq<Byte>)
    requires ptr <= |text| && Proper(enc, text, ptr) && ProperDtd(dtd)
    ensures var p := PieceAt(dtd, enc, text, ptr);
            var r := Run(dtd, open, enc, cdata, text, ptr, out);
            && (!p.End? ==> NextOf(p) <= |text| && Proper(enc, text, NextOf(p)))
            && (p.End? ==> r == Outcome(p.error, out))
            && (p.Put? ==> r == Run(dtd, open, enc, cdata, text, p.next, out + p.bytes))
            && (p.Space? ==> r == Run(dtd, open, enc, cdata, text, p.next, Blank(cdata, out)))
            && (p.Skip? ==> r == Run(dtd, open, enc, cdata, text, p.next, out))
            && (p.Reference? ==>
                  && p.name in dtd.entities
                  && (!Refusal(dtd, open, p.name).None? ==> r == Outcome(Refusal(dtd, open, p.name), out))
                  && (Refusal(dtd, open, p.name).None? ==>
                        var own := dtd.entities[p.name].text.value;
                        var inner := Run(dtd, open + {p.name}, dtd.internal, cdata, own, 0, out);
                        r == if inner.error.None? then Run(dtd, open, enc, cdata, text, p.next, inner.value)
                             else inner))
  {
    hide PieceAt;
    hide Proper;
    PieceAdvances(dtd, enc, text, ptr);
  }
}
