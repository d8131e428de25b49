/** The table that finds attributes with the same expanded name (xmlparse.c, storeAtts).

    The table is not cleared between elements.  A slot is in use only if it carries the version of
    the current element, and the version counts down; when it reaches zero, or when the table
    grows, every slot is marked with a version that no element has yet. */
module NsAttributes {
  import opened Probing

  const INIT_ATTS_VERSION: nat := 0xffff_ffff

  /** A slot: the version it was written in, the hash value and the stored name. */
  datatype NsAtt = NsAtt(version: nat, hash: nat, uriName: string)

  /** What is stored for an attribute; with triplets the prefix follows the expanded name. */
  datatype Entry = Entry(hash: nat, uriName: string)

  function Taken(v: seq<NsAtt>, version: nat): set<nat> {
    set s: nat | s < |v| && v[s].version == version
  }

  /** Slot s is the k-th on the path of h, and the slots before it are taken. */
  ghost predicate Reached(v: seq<NsAtt>, version: nat, power: nat, h: nat, k: nat, s: nat)
    requires power >= 2 && |v| == Pow2(power)
  {
    && Slot(h, power, k) == s
    && forall j | 0 <= j < k :: v[Slot(h, power, j)].version == version
  }

  ghost predicate Findable(v: seq<NsAtt>, version: nat, power: nat, s: nat)
    requires power >= 2 && |v| == Pow2(power) && s < |v|
  {
    v[s].version == version ==> exists k: nat :: Reached(v, version, power, v[s].hash, k, s)
  }

  function EntryOf(a: NsAtt): Entry {
    Entry(a.hash, a.uriName)
  }

  /** The taken slots hold exactly these entries, each on its own path. */
  ghost predicate Stores(v: seq<NsAtt>, version: nat, power: nat, entries: seq<Entry>) {
    && power >= 3 && |v| == Pow2(power)
    && (forall s: nat | s < |v| :: Findable(v, version, power, s))
    && (forall s: nat | s < |v| && v[s].version == version :: EntryOf(v[s]) in entries)
    && (forall e | e in entries :: exists s: nat :: s < |v| && v[s].version == version && EntryOf(v[s]) == e)
    && |Taken(v, version)| == |entries|
  }

  /** The comparison of storeAtts: it stops at the end of the new name. */
  predicate Matches(e: Entry, h: nat, name: string) {
    e.hash == h && name <= e.uriName
  }

  lemma {:induction false} WalkIsBounded(v: seq<NsAtt>, version: nat, power: nat, h: nat, k: nat, s: nat)
    requires power >= 2 && |v| == Pow2(power) && k <= Pow2(power)
    requires Reached(v, version, power, h, k, s)
    ensures k <= |Taken(v, version)|
  {
    var start, step := h % Pow2(power), Step(h, power);
    VisitedCount(start, step, power, k);
    forall i | i in Visited(start, step, Pow2(power), k) ensures i in Taken(v, version) {
      var j :| 0 <= j < k && i == Probe(start, step, Pow2(power), j);
      assert i == Slot(h, power, j);
    }
    SubsetCount(Visited(start, step, Pow2(power), k), Taken(v, version));
  }

  /** One more collision: the C step leads to the next slot of the path. */
  lemma {:induction false} OneMoreStep(v: seq<NsAtt>, version: nat, power: nat, h: nat, k: nat, i: nat)
    requires power >= 2 && |v| == Pow2(power)
    requires |Taken(v, version)| < Pow2(power) && k <= |Taken(v, version)|
    requires i < |v| && Reached(v, version, power, h, k, i) && v[i].version == version
    ensures var step := Step(h, power);
            var next := if i < step then i + |v| - step else i - step;
            0 <= next < |v| && Reached(v, version, power, h, k + 1, next)
    ensures k + 1 <= |Taken(v, version)|
  {
    NextProbe(h % Pow2(power), Step(h, power), Pow2(power), k);
    var next := Slot(h, power, k + 1);
    assert Reached(v, version, power, h, k + 1, next);
    WalkIsBounded(v, version, power, h, k + 1, next);
  }

  /** Every entry with this hash lies on the path, before its first free slot. */
  lemma {:induction false} PathHoldsHash(v: seq<NsAtt>, version: nat, power: nat, entries: seq<Entry>, h: nat,
                                         k: nat, s: nat, e: Entry)
    requires Stores(v, version, power, entries)
    requires s < |v| && Reached(v, version, power, h, k, s) && v[s].version != version
    requires e in entries && e.hash == h
    ensures exists j: nat :: j < k && EntryOf(v[Slot(h, power, j)]) == e
  {
    var t: nat :| t < |v| && v[t].version == version && EntryOf(v[t]) == e;
    assert Findable(v, version, power, t);
    var j: nat :| Reached(v, version, power, h, j, t);
    assert j < k;
  }

  /** Writing the free slot at the end of the path stores one more entry. */
  lemma {:induction false} WritingStores(v: seq<NsAtt>, version: nat, power: nat, entries: seq<Entry>, a: NsAtt,
                                         k: nat, s: nat)
    requires Stores(v, version, power, entries)
    requires s < |v| && Reached(v, version, power, a.hash, k, s) && v[s].version != version && a.version == version
    ensures Stores(v[s := a], version, power, entries + [EntryOf(a)])
  {
    var w := v[s := a];
    forall t: nat | t < |w|
      ensures Findable(w, version, power, t)
    {
      if t == s {
        assert Reached(w, version, power, a.hash, k, s);
      } else if w[t].version == version {
        assert Findable(v, version, power, t);
        var j: nat :| Reached(v, version, power, v[t].hash, j, t);
        assert Reached(w, version, power, w[t].hash, j, t);
      }
    }
    forall e | e in entries + [EntryOf(a)]
      ensures exists t: nat :: t < |w| && w[t].version == version && EntryOf(w[t]) == e
    {
      if e in entries {
        var t: nat :| t < |v| && v[t].version == version && EntryOf(v[t]) == e;
        assert w[t] == v[t];
      } else {
        assert w[s] == a;
      }
    }
    assert Taken(w, version) == Taken(v, version) + {s};
  }

  lemma {:induction false} ClearStoresNothing(v: seq<NsAtt>, version: nat, power: nat)
    requires power >= 3 && |v| == Pow2(power)
    requires forall s | 0 <= s < |v| :: v[s].version != version
    ensures Stores(v, version, power, [])
  {
    assert Taken(v, version) == {};
  }

  class NsAttTable {
    const hash: string -> nat
    var power: nat
    var version: nat
    var slots: array<NsAtt>

    /** Between elements: no slot carries a version that a later element will use. */
    ghost predicate Idle()
      reads this, slots
    {
      && version < INIT_ATTS_VERSION
      && (if power == 0 then slots.Length == 0 else power >= 3 && slots.Length == Pow2(power))
      && forall s | 0 <= s < slots.Length :: slots[s].version >= version
    }

    constructor (hash: string -> nat)
      ensures Idle() && fresh(slots) && this.hash == hash
    {
      this.hash := hash;
      power, version := 0, 0;
      slots := new NsAtt[0];
    }

    /**
     * The set-up for an element with prefixed attributes: as if the table had just been cleared,
     * and with more than twice as many slots as attributes.
     */
    method Begin(nPrefixes: nat)
      requires Idle() && nPrefixes > 0
      modifies this, slots
      ensures Stores(slots[..], version, power, [])
      ensures Idle() && 2 * nPrefixes < slots.Length == Pow2(power)
      ensures slots == old(slots) || fresh(slots)
    {
      var v := version;
      if 2 * nPrefixes >= Pow2(power) {
        Enlarge(nPrefixes);
        v := 0;
      }
      if v == 0 {
        v := INIT_ATTS_VERSION;
        var j := slots.Length;
        while j != 0
          invariant 0 <= j <= slots.Length
          invariant forall s | j <= s < slots.Length :: slots[s].version == v
          modifies slots
        {
          j := j - 1;
          slots[j] := slots[j].(version := v);
        }
      }
      v := v - 1;
      version := v;
      ClearStoresNothing(slots[..], version, power);
    }

    /** What holds while an element's attributes are entered. */
    ghost predicate Entering(entries: seq<Entry>)
      reads this, slots
    {
      Idle() && Stores(slots[..], version, power, entries)
    }

    /**
     * Looks an expanded name up, and stores it when no entry matches.  `stored` is the name with
     * what triplets append to it.
     */
    method Insert(name: string, stored: string, ghost entries: seq<Entry>) returns (duplicate: bool)
      requires Entering(entries) && 2 * |entries| < Pow2(power)
      modifies slots
      ensures duplicate <==> exists e | e in entries :: Matches(e, hash(name), name)
      ensures Entering(if duplicate then entries else entries + [Entry(hash(name), stored)])
    {
      hide Step;
      hide Reached;
      hide Stores;
      var h := hash(name);
      var j, k := WalkTo(name, h, entries);
      if slots[j].version == version {
        return true;
      }
      WritingStores(slots[..], version, power, entries, NsAtt(version, h, stored), k, j);
      slots[j] := NsAtt(version, h, stored);
      return false;
    }

    /** The probing loop: stops at an entry that matches, or at a free slot when none does. */
    method WalkTo(name: string, h: nat, ghost entries: seq<Entry>) returns (j: nat, ghost k: nat)
      requires Entering(entries) && 2 * |entries| < Pow2(power)
      ensures j < slots.Length && power >= 2 && slots.Length == Pow2(power)
      ensures Reached(slots[..], version, power, h, k, j)
      ensures slots[j].version == version <==> exists e | e in entries :: Matches(e, h, name)
    {
      hide Step;
      hide Reached;
      hide Taken;
      var size := slots.Length;
      var step := 0;
      j, k := h % size, 0;
      FirstSlot(slots[..], version, power, h);
      while slots[j].version == version
        invariant j < slots.Length && Reached(slots[..], version, power, h, k, j)
        invariant step == 0 || step == Step(h, power)
        invariant k <= |Taken(slots[..], version)| < size
        invariant forall i | 0 <= i < k :: !Matches(EntryOf(slots[Slot(h, power, i)]), h, name)
        decreases size - k
      {
        SlotIs(slots[..], version, power, h, k, j);
        if h == slots[j].hash {
          var same := IsPrefix(name, slots[j].uriName);
          if same {
            assert EntryOf(slots[j]) in entries;
            return;
          }
        }
        if step == 0 {
          step := Step(h, power);
        }
        OneMoreStep(slots[..], version, power, h, k, j);
        if j < step {
          j := j + size - step;
        } else {
          j := j - step;
        }
        k := k + 1;
      }
      forall e | e in entries && e.hash == h
        ensures !Matches(e, h, name)
      {
        PathHoldsHash(slots[..], version, power, entries, h, k, j, e);
        var i: nat :| i < k && EntryOf(slots[..][Slot(h, power, i)]) == e;
        assert slots[..][Slot(h, power, i)] == slots[Slot(h, power, i)];
      }
    }

    /** The comparison of the new name with a stored one, character by character. */
    static method IsPrefix(s1: string, s2: string) returns (same: bool)
      ensures same <==> s1 <= s2
    {
      var i := 0;
      while i < |s1| && i < |s2| && s1[i] == s2[i]
        invariant i <= |s1| && i <= |s2| && s1[..i] == s2[..i]
      {
        i := i + 1;
      }
      return i == |s1|;
    }

    /** All prefixed attributes of one element: the first that is refused as a duplicate. */
    method EnterAll(names: seq<string>, stored: seq<string>) returns (refused: int)
      requires Idle() && |names| == |stored|
      modifies this, slots
      ensures Idle()
      ensures refused == FirstClash(hash, names, stored, 0)
    {
      hide Stores;
      if |names| == 0 {
        return -1;
      }
      Begin(|names|);
      var i := 0;
      ghost var entries: seq<Entry> := [];
      while i < |names|
        invariant i <= |names| && Entering(entries) && |entries| == i && 2 * |names| < Pow2(power)
        invariant forall k | 0 <= k < i :: entries[k] == Entry(hash(names[k]), stored[k])
        invariant FirstClash(hash, names, stored, 0) == FirstClash(hash, names, stored, i)
        modifies slots
      {
        var duplicate := Insert(names[i], stored[i], entries);
        ClashIsMatch(hash, names, stored, i, entries);
        if duplicate {
          return i;
        }
        entries := entries + [Entry(hash(names[i]), stored[i])];
        i := i + 1;
      }
      return -1;
    }

    /** A larger table; its slots are written before they are read. */
    method Enlarge(nPrefixes: nat)
      requires Idle() && nPrefixes > 0
      modifies this`power, this`slots
      ensures power >= 3 && fresh(slots) && slots.Length == Pow2(power) && 2 * nPrefixes < Pow2(power)
    {
      var p := power;
      HalvesBound(nPrefixes);
      while nPrefixes / Pow2(p) != 0
        invariant p <= power + nPrefixes
        decreases power + nPrefixes - p
      {
        PowersGrow(p, nPrefixes);
        p := p + 1;
      }
      SmallQuotient(nPrefixes, p);
      power := p + 1;
      if power < 3 {
        PowersRise(power, 3);
        power := 3;
      }
      slots := new NsAtt[Pow2(power)](_ => NsAtt(0, 0, ""));
    }
  }

  lemma {:induction false} HalvesBound(n: nat)
    ensures n < Pow2(n)
  {
    if n > 0 {
      HalvesBound(n - 1);
    }
  }

  lemma {:induction false} PowersRise(p: nat, q: nat)
    requires p <= q
    ensures Pow2(p) <= Pow2(q)
    decreases q
  {
    if p < q {
      PowersRise(p, q - 1);
    }
  }

  lemma {:induction false} SmallQuotient(n: nat, p: nat)
    requires n / Pow2(p) == 0
    ensures n < Pow2(p)
  {
    QuotientOfLarger(n, Pow2(p));
  }

  lemma {:induction false} QuotientOfLarger(n: nat, d: nat)
    requires d > 0
    ensures n >= d ==> n / d >= 1
  {
  }

  /** While the quotient is not zero, the exponent is below the number. */
  lemma {:induction false} PowersGrow(p: nat, n: nat)
    requires n / Pow2(p) != 0
    ensures p < n
  {
    HalvesBound(p);
    QuotientOfSmaller(n, Pow2(p));
  }

  lemma {:induction false} QuotientOfSmaller(n: nat, d: nat)
    requires d > 0
    ensures n < d ==> n / d == 0
  {
  }

  lemma {:induction false} FirstSlot(v: seq<NsAtt>, version: nat, power: nat, h: nat)
    requires power >= 2 && |v| == Pow2(power)
    ensures h % Pow2(power) < |v| && Reached(v, version, power, h, 0, h % Pow2(power))
  {
    PathStart(h, power);
  }

  lemma {:induction false} SlotIs(v: seq<NsAtt>, version: nat, power: nat, h: nat, k: nat, s: nat)
    requires power >= 2 && |v| == Pow2(power) && Reached(v, version, power, h, k, s)
    ensures Slot(h, power, k) == s
  {
  }

  // ----- which attributes are refused -----

  /** An earlier name has the same hash value, and its stored form begins with this name. */
  predicate Clashes(hash: string -> nat, names: seq<string>, stored: seq<string>, j: nat)
    requires |names| == |stored| && j < |names|
  {
    exists i :: 0 <= i < j && hash(names[i]) == hash(names[j]) && names[j] <= stored[i]
  }

  function FirstClash(hash: string -> nat, names: seq<string>, stored: seq<string>, j: nat): (r: int)
    requires |names| == |stored| && j <= |names|
    ensures r == -1 || (j <= r < |names| && Clashes(hash, names, stored, r))
    ensures forall k | j <= k < (if r == -1 then |names| else r) :: !Clashes(hash, names, stored, k)
    decreases |names| - j
  {
    if j == |names| then -1 else if Clashes(hash, names, stored, j) then j else FirstClash(hash, names, stored, j + 1)
  }

  lemma {:induction false} ClashIsMatch(hash: string -> nat, names: seq<string>, stored: seq<string>, j: nat,
                                        entries: seq<Entry>)
    requires |names| == |stored| && j < |names| && |entries| == j
    requires forall k | 0 <= k < j :: entries[k] == Entry(hash(names[k]), stored[k])
    ensures Clashes(hash, names, stored, j) <==> exists e | e in entries :: Matches(e, hash(names[j]), names[j])
  {
    if Clashes(hash, names, stored, j) {
      var i :| 0 <= i < j && hash(names[i]) == hash(names[j]) && names[j] <= stored[i];
      assert entries[i] in entries && Matches(entries[i], hash(names[j]), names[j]);
    }
  }

  predicate Distinct(names: seq<string>) {
    forall i, j | 0 <= i < j < |names| :: names[i] != names[j]
  }

  /** The stored form begins with the expanded name. */
  predicate Extends(names: seq<string>, stored: seq<string>) {
    |names| == |stored| && forall i | 0 <= i < |names| :: names[i] <= stored[i]
  }

  /** No duplicate is missed, whatever the hash function. */
  lemma {:induction false} NoDuplicateIsMissed(hash: string -> nat, names: seq<string>, stored: seq<string>)
    requires Extends(names, stored)
    ensures FirstClash(hash, names, stored, 0) == -1 ==> Distinct(names)
  {
    if FirstClash(hash, names, stored, 0) == -1 {
      forall i, j | 0 <= i < j < |names|
        ensures names[i] != names[j]
      {
        assert !Clashes(hash, names, stored, j);
      }
    }
  }

  /** Equal hash values never meet a name that only begins an earlier stored one. */
  predicate NoPrefixCollision(hash: string -> nat, names: seq<string>, stored: seq<string>)
    requires |names| == |stored|
  {
    forall i, j | 0 <= i < j < |names| && hash(names[i]) == hash(names[j]) && names[j] <= stored[i] ::
        names[i] == names[j]
  }

  /**
   * The check is exact when there is no such collision.  Otherwise it can refuse distinct names,
   * and for distinct names a collision is the only way.
   */
  lemma {:induction false} RefusesExactly(hash: string -> nat, names: seq<string>, stored: seq<string>)
    requires Extends(names, stored)
    ensures NoPrefixCollision(hash, names, stored) ==> (FirstClash(hash, names, stored, 0) == -1 <==> Distinct(names))
    ensures Distinct(names) ==> (FirstClash(hash, names, stored, 0) == -1 <==> NoPrefixCollision(hash, names, stored))
  {
    NoDuplicateIsMissed(hash, names, stored);
    var r := FirstClash(hash, names, stored, 0);
    if r == -1 {
      forall i, j | 0 <= i < j < |names|
        ensures !(hash(names[i]) == hash(names[j]) && names[j] <= stored[i])
      {
        assert !Clashes(hash, names, stored, j);
      }
    } else {
      var i :| 0 <= i < r && hash(names[i]) == hash(names[r]) && names[r] <= stored[i];
    }
  }

  // ----- the hash function of the program -----

  function Mix(h: bv32, b: bv32): bv32 {
    (h * 0xF4243) ^ b
  }

  /** The character as an unsigned char. */
  function Code(c: char): bv32 {
    (c as bv32) & 0xff
  }

  /** CHAR_HASH over a string, in 32 bits. */
  function HashFrom(h: bv32, s: string): bv32
    decreases |s|
  {
    if |s| == 0 then h else HashFrom(Mix(h, Code(s[0])), s[1..])
  }

  /** The hash value of an expanded name, its terminating zero included. */
  function NameHash(name: string): nat {
    HashFrom(0, name + "\0") as nat
  }

  lemma {:induction false} HashStep(h: bv32, c: char, rest: string, s: string)
    requires s == [c] + rest
    ensures HashFrom(h, s) == HashFrom(Mix(h, Code(c)), rest)
  {
    hide Mix;
    hide Code;
    assert s[0] == c && s[1..] == rest;
  }

  lemma {:induction false} HashNothing(h: bv32)
    ensures HashFrom(h, "") == h
  {
    hide Mix;
    hide Code;
  }

  lemma {:induction false} SomeCodes()
    ensures Code('u') == 0x75 && Code('|') == 0x7c && Code('a') == 0x61 && Code('h') == 0x68
  {
  }

  lemma {:induction false} MoreCodes()
    ensures Code('k') == 0x6b && Code('s') == 0x73 && Code('p') == 0x70 && Code('\0') == 0
  {
  }

  lemma {:induction false} SomeMixes()
    ensures Mix(0x0, 0x75) == 0x75
    ensures Mix(0x75, 0x7c) == 0x6f948e3
    ensures Mix(0x6f948e3, 0x61) == 0x5d559908
    ensures Mix(0x5d559908, 0x68) == 0x76531d70
    ensures Mix(0x76531d70, 0x61) == 0x1ee79431
    ensures Mix(0x1ee79431, 0x6b) == 0x79af6ab8
    ensures Mix(0x79af6ab8, 0x73) == 0x53345e5b
    ensures Mix(0x53345e5b, 0x61) == 0xce5d27b0
    ensures Mix(0xce5d27b0, 0x61) == 0x59ecc371
    ensures Mix(0x59ecc371, 0x70) == 0x6f948e3
    ensures Mix(0x5d559908, 0x0) == 0x76531d18
  {
  }

  lemma {:induction false} LongNameHash()
    ensures HashFrom(0, "u|ahaksaapa\0") == 0x76531d18
  {
    hide HashFrom;
    hide Mix;
    hide Code;
    SomeCodes();
    MoreCodes();
    SomeMixes();
    HashStep(0x0, 'u', "|ahaksaapa\0", "u|ahaksaapa\0");
    HashStep(0x75, '|', "ahaksaapa\0", "|ahaksaapa\0");
    HashStep(0x6f948e3, 'a', "haksaapa\0", "ahaksaapa\0");
    HashStep(0x5d559908, 'h', "aksaapa\0", "haksaapa\0");
    HashStep(0x76531d70, 'a', "ksaapa\0", "aksaapa\0");
    HashStep(0x1ee79431, 'k', "saapa\0", "ksaapa\0");
    HashStep(0x79af6ab8, 's', "aapa\0", "saapa\0");
    HashStep(0x53345e5b, 'a', "apa\0", "aapa\0");
    HashStep(0xce5d27b0, 'a', "pa\0", "apa\0");
    HashStep(0x59ecc371, 'p', "a\0", "pa\0");
    HashStep(0x6f948e3, 'a', "\0", "a\0");
    HashStep(0x5d559908, '\0', "", "\0");
    HashNothing(0x76531d18);
  }

  lemma {:induction false} ShortNameHash()
    ensures HashFrom(0, "u|a\0") == 0x76531d18
  {
    hide HashFrom;
    hide Mix;
    hide Code;
    SomeCodes();
    MoreCodes();
    SomeMixes();
    HashStep(0x0, 'u', "|a\0", "u|a\0");
    HashStep(0x75, '|', "a\0", "|a\0");
    HashStep(0x6f948e3, 'a', "\0", "a\0");
    HashStep(0x5d559908, '\0', "", "\0");
    HashNothing(0x76531d18);
  }

  /**
   * A start tag with different names that is refused under the program's own hash function:
   * <e xmlns:p="u" p:ahaksaapa="1" p:a="2"/> with the separator '|'.
   */
  lemma {:induction false} DistinctNamesRefused()
    ensures var names := ["u" + "|" + "ahaksaapa", "u" + "|" + "a"];
            Distinct(names) && FirstClash(NameHash, names, names, 0) == 1
  {
    hide HashFrom;
    var names := ["u" + "|" + "ahaksaapa", "u" + "|" + "a"];
    LongNameHash();
    ShortNameHash();
    assert names[0] + "\0" == "u|ahaksaapa\0" && names[1] + "\0" == "u|a\0";
    assert names[1] <= names[0];
    assert Clashes(NameHash, names, names, 1);
    assert !Clashes(NameHash, names, names, 0);
  }
}
