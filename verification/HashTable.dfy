/** The open-addressing hash table of the parser (xmlparse.c, lookup and its helpers).

    A table is an array of pointers to named entries.  Its size is a power of two, a collision is
    resolved by stepping backwards by an odd step derived from the hash, entries are never removed
    one by one, and the table doubles before more than half of it is in use.  The table is shown to
    behave as a finite map from names to entries, whatever the hash function is. */
module Probing {

  function Pow2(n: nat): (r: nat)
    ensures r >= 1
  {
    if n == 0 then 1 else 2 * Pow2(n - 1)
  }

  /** Bits of the hash above the slot index, limited to a quarter of the table. */
  function SecondHash(h: nat, size: nat, quarter: nat): (r: nat)
    requires size > 0 && quarter > 0
    ensures r < quarter
  {
    RemainderIsSmall((h / size) * 2, quarter);
    ((h / size) * 2) % quarter
  }

  /** The step taken after a collision: the second hash with its lowest bit set, truncated to an
      unsigned char. */
  function Step(h: nat, power: nat): (step: nat)
    requires power >= 2
    ensures step % 2 == 1 && step < Pow2(power)
  {
    assert Pow2(power) == 2 * Pow2(power - 1) == 4 * Pow2(power - 2);
    OddByte(SecondHash(h, Pow2(power), Pow2(power - 2)))
  }

  /** Set the lowest bit and truncate to an unsigned char. */
  function OddByte(second: nat): (odd: nat)
    ensures odd % 2 == 1 && odd <= second + 1
  {
    (if second % 2 == 0 then second + 1 else second) % 256
  }

  lemma {:induction false} RemainderIsSmall(x: int, d: int)
    requires d > 0
    ensures 0 <= x % d < d
  {
  }

  /** The slot reached after k collisions. */
  function Probe(start: nat, step: nat, size: nat, k: nat): (i: nat)
    requires size > 0
    ensures i < size
  {
    (start - k * step) % size
  }

  /** An odd factor can be cancelled modulo a power of two. */
  lemma {:induction false} OddCancels(power: nat, a: int, step: nat)
    requires step % 2 == 1
    requires (a * step) % Pow2(power) == 0
    ensures a % Pow2(power) == 0
  {
    if power > 0 {
      var half := Pow2(power - 1);
      var c := (a * step) / (2 * half);
      assert a * step == c * (2 * half) == 2 * (c * half) by { DivisionIsExact(a * step, 2 * half); }
      EvenFactor(a, step, c * half);
      var b := a / 2;
      assert a == 2 * b;
      assert b * step == c * half by {
        assert 2 * (b * step) == (2 * b) * step == a * step;
      }
      MultipleHasNoRemainder(c, half);
      OddCancels(power - 1, b, step);
      assert b == (b / half) * half by { DivisionIsExact(b, half); }
      assert a == (b / half) * (2 * half);
      MultipleHasNoRemainder(b / half, 2 * half);
    }
  }

  lemma {:induction false} DivisionIsExact(x: int, d: int)
    requires d > 0 && x % d == 0
    ensures x == (x / d) * d
  {
  }

  lemma {:induction false} MultipleHasNoRemainder(c: int, d: int)
    requires d > 0
    ensures (c * d) % d == 0
  {
    DivModUnique(c * d, d, c, 0);
  }

  lemma {:induction false} EvenFactor(a: int, step: int, m: int)
    requires step % 2 == 1 && a * step == 2 * m
    ensures a % 2 == 0
  {
    var s := step / 2;
    assert step == 2 * s + 1;
    assert a * step == 2 * (a * s) + a;
  }

  lemma {:induction false} CongruentDifference(x: int, y: int, size: nat)
    requires size > 0 && x % size == y % size
    ensures (x - y) % size == 0
  {
    var q := x / size - y / size;
    assert x == (x / size) * size + x % size;
    assert y == (y / size) * size + y % size;
    assert x - y == q * size;
    MultipleHasNoRemainder(q, size);
  }

  /** A probe path visits as many different slots as the table has before it repeats one. */
  lemma {:induction false} ProbesDiffer(start: nat, step: nat, power: nat, j: nat, k: nat)
    requires step % 2 == 1
    requires j < k < Pow2(power)
    ensures Probe(start, step, Pow2(power), j) != Probe(start, step, Pow2(power), k)
  {
    hide Pow2;
    var size := Pow2(power);
    if Probe(start, step, size, j) == Probe(start, step, size, k) {
      CongruentDifference(start - j * step, start - k * step, size);
      DistanceOnPath(start, step, j, k);
      OddCancels(power, k - j, step);
      SmallMultiple(k - j, size);
    }
  }

  lemma {:induction false} DistanceOnPath(start: int, step: int, j: int, k: int)
    ensures (start - j * step) - (start - k * step) == (k - j) * step
  {
  }

  lemma {:induction false} SmallMultiple(x: int, d: int)
    requires 0 <= x < d && x % d == 0
    ensures x == 0
  {
  }

  /** The C step, which avoids negative indices, is the next probe. */
  lemma {:induction false} NextProbe(start: nat, step: nat, size: nat, k: nat)
    requires 0 < step < size
    ensures var i := Probe(start, step, size, k);
            Probe(start, step, size, k + 1) == if i < step then i + size - step else i - step
  {
    var x := start - k * step;
    var i := x % size;
    assert start - (k + 1) * step == x - step;
    var q := x / size;
    assert x == q * size + i;
    var r := if i < step then i + size - step else i - step;
    var q' := if i < step then q - 1 else q;
    assert x - step == q' * size + r;
    DivModUnique(x - step, size, q', r);
  }

  lemma {:induction false} MulGrows(a: int, d: int)
    requires a >= 1 && d > 0
    ensures a * d >= d
  {
  }

  lemma {:induction false} DivModUnique(x: int, size: int, q: int, r: int)
    requires size > 0 && 0 <= r < size && x == q * size + r
    ensures x % size == r
  {
    var q', r' := x / size, x % size;
    assert x == q' * size + r' && 0 <= r' < size;
    assert (q - q') * size == q * size - q' * size == r' - r;
    assert (q' - q) * size == r - r';
    if q > q' {
      MulGrows(q - q', size);
    } else if q < q' {
      MulGrows(q' - q, size);
    }
  }

  ghost function Visited(start: nat, step: nat, size: nat, n: nat): set<nat>
    requires size > 0
  {
    set j | 0 <= j < n :: Probe(start, step, size, j)
  }

  lemma {:induction false} VisitedCount(start: nat, step: nat, power: nat, n: nat)
    requires step % 2 == 1 && n <= Pow2(power)
    ensures |Visited(start, step, Pow2(power), n)| == n
  {
    var size := Pow2(power);
    if n > 0 {
      VisitedCount(start, step, power, n - 1);
      var last := Probe(start, step, size, n - 1);
      forall j | 0 <= j < n - 1 ensures Probe(start, step, size, j) != last {
        ProbesDiffer(start, step, power, j, n - 1);
      }
      assert Visited(start, step, size, n) == Visited(start, step, size, n - 1) + {last};
    }
  }

  lemma {:induction false} SubsetCount<T>(a: set<T>, b: set<T>)
    requires a <= b
    ensures |a| <= |b|
  {
    assert b == a + (b - a);
  }

  /** The slot that an entry with hash value h meets after k collisions. */
  function Slot(h: nat, power: nat, k: nat): (i: nat)
    requires power >= 2
    ensures i < Pow2(power)
  {
    Probe(h % Pow2(power), Step(h, power), Pow2(power), k)
  }

  lemma {:induction false} PathStart(h: nat, power: nat)
    requires power >= 2
    ensures Slot(h, power, 0) == h % Pow2(power)
  {
    RemainderIsSmall(h, Pow2(power));
    DivModUnique(h % Pow2(power), Pow2(power), 0, h % Pow2(power));
  }
}

module HashTables {
  import opened Probing

  const INIT_POWER: nat := 6

  /** What the parser stores in a table: a structure whose first member is its name. */
  class Named {
    const name: string
    constructor (name: string)
      ensures this.name == name
    {
      this.name := name;
    }
  }

  /** Slot s is the k-th on the probe path of h, and the path up to there is full. */
  ghost predicate Reached(v: seq<Named?>, power: nat, h: nat, k: nat, s: nat)
    requires power >= 2 && |v| == Pow2(power)
  {
    && Slot(h, power, k) == s
    && forall j | 0 <= j < k :: v[Slot(h, power, j)] != null
  }

  /** The first k slots of the path are full, and not with this name. */
  ghost predicate PassedBy(v: seq<Named?>, power: nat, h: nat, k: nat, name: string)
    requires power >= 2 && |v| == Pow2(power)
  {
    forall j | 0 <= j < k :: v[Slot(h, power, j)] != null && v[Slot(h, power, j)].name != name
  }

  lemma {:induction false} NonePassedBy(v: seq<Named?>, power: nat, h: nat, name: string)
    requires power >= 2 && |v| == Pow2(power)
    ensures PassedBy(v, power, h, 0, name)
  {
  }

  lemma {:induction false} OneMorePassed(v: seq<Named?>, power: nat, h: nat, k: nat, i: nat, name: string)
    requires power >= 2 && |v| == Pow2(power) && PassedBy(v, power, h, k, name)
    requires Reached(v, power, h, k, i) && v[i] != null && v[i].name != name
    ensures PassedBy(v, power, h, k + 1, name)
  {
  }

  ghost predicate Findable(hash: string -> nat, v: seq<Named?>, power: nat, s: nat)
    requires power >= 2 && |v| == Pow2(power) && s < |v|
  {
    v[s] != null ==> exists k: nat :: Reached(v, power, hash(v[s].name), k, s)
  }

  ghost predicate WellPlaced(hash: string -> nat, v: seq<Named?>, power: nat) {
    && power >= 2
    && |v| == Pow2(power)
    && (forall s: nat | s < |v| :: Findable(hash, v, power, s))
    && (forall s: nat, t: nat | s < t < |v| && v[s] != null && v[t] != null :: v[s].name != v[t].name)
  }

  ghost function Occupied(v: seq<Named?>): set<nat> {
    set s: nat | s < |v| && v[s] != null
  }

  /** The map that the slots represent. */
  ghost predicate Represents(v: seq<Named?>, m: map<string, Named>) {
    && (forall s: nat | s < |v| && v[s] != null :: v[s].name in m && m[v[s].name] == v[s])
    && (forall n | n in m :: m[n].name == n && m[n] in v)
  }

  ghost predicate NotAmong(v: seq<Named?>, name: string) {
    forall s: nat | s < |v| && v[s] != null :: v[s].name != name
  }

  /** A table of 2^power slots, at most half of them used, that represents the map m. */
  ghost predicate InOrder(hash: string -> nat, v: seq<Named?>, power: nat, used: nat, m: map<string, Named>) {
    && power >= INIT_POWER
    && WellPlaced(hash, v, power)
    && Represents(v, m)
    && used == |Occupied(v)|
    && used <= Pow2(power - 1)
  }

  lemma {:induction false} InOrderFacts(hash: string -> nat, v: seq<Named?>, power: nat, used: nat, m: map<string,
                                        Named>)
    requires InOrder(hash, v, power, used, m)
    ensures power >= 2 && |v| == Pow2(power) && Pow2(power + 1) == 2 * |v| && Pow2(power) == 2 * Pow2(power - 1)
    ensures WellPlaced(hash, v, power) && Represents(v, m)
    ensures used == |Occupied(v)| <= Pow2(power - 1) < Pow2(power)
    ensures forall s: nat, t: nat | s < t < |v| && v[s] != null && v[t] != null :: v[s].name != v[t].name
  {
  }

  /** A free slot at the end of a walk shows that the name was never stored. */
  lemma {:induction false} FreeSlotMeansAbsent(hash: string -> nat, v: seq<Named?>, power: nat, name: string, k: nat,
                                               s: nat)
    requires WellPlaced(hash, v, power)
    requires Reached(v, power, hash(name), k, s) && v[s] == null
    requires PassedBy(v, power, hash(name), k, name)
    ensures NotAmong(v, name)
  {
    forall t: nat | t < |v| && v[t] != null ensures v[t].name != name {
      assert Findable(hash, v, power, t);
      var m: nat :| Reached(v, power, hash(v[t].name), m, t);
    }
  }

  lemma {:induction false} PathIsReached(v: seq<Named?>, power: nat, h: nat)
    requires power >= 2 && |v| == Pow2(power)
    ensures h % Pow2(power) < |v| && Reached(v, power, h, 0, h % Pow2(power))
  {
    PathStart(h, power);
  }

  /** Putting a new entry on its own probe path keeps every other entry findable. */
  lemma {:induction false} PlacingKeepsOrder(hash: string -> nat, v: seq<Named?>, power: nat, e: Named, k: nat, s: nat)
    requires WellPlaced(hash, v, power)
    requires Reached(v, power, hash(e.name), k, s) && v[s] == null
    requires NotAmong(v, e.name)
    ensures WellPlaced(hash, v[s := e], power)
    ensures Occupied(v[s := e]) == Occupied(v) + {s} && s !in Occupied(v)
  {
    var w := v[s := e];
    forall t: nat | t < |w| ensures Findable(hash, w, power, t) {
      if t == s {
        assert Reached(w, power, hash(e.name), k, s);
      } else if v[t] != null {
        assert Findable(hash, v, power, t);
        var m: nat :| Reached(v, power, hash(v[t].name), m, t);
        assert Reached(w, power, hash(w[t].name), m, t);
      }
    }
  }

  /** A walk over full slots is shorter than the number of full slots, so it ends. */
  lemma {:induction false} WalkIsBounded(v: seq<Named?>, power: nat, h: nat, k: nat, s: nat)
    requires power >= 2 && |v| == Pow2(power)
    requires k <= Pow2(power)
    requires Reached(v, power, h, k, s)
    ensures k <= |Occupied(v)|
  {
    var start, step := h % Pow2(power), Step(h, power);
    VisitedCount(start, step, power, k);
    forall i | i in Visited(start, step, Pow2(power), k) ensures i in Occupied(v) {
      var j :| 0 <= j < k && i == Probe(start, step, Pow2(power), j);
      assert i == Slot(h, power, j);
    }
    SubsetCount(Visited(start, step, Pow2(power), k), Occupied(v));
  }

  /** One more collision: the C step leads to the next slot of the path. */
  lemma {:induction false} OneMoreStep(v: seq<Named?>, power: nat, h: nat, k: nat, i: nat)
    requires power >= 2 && |v| == Pow2(power)
    requires |Occupied(v)| < Pow2(power) && k <= |Occupied(v)|
    requires Reached(v, power, h, k, i) && v[i] != null
    ensures var step := Step(h, power);
            var next := if i < step then i + |v| - step else i - step;
            0 <= next < |v| && Reached(v, power, h, k + 1, next)
    ensures k + 1 <= |Occupied(v)|
  {
    NextProbe(h % Pow2(power), Step(h, power), Pow2(power), k);
    var next := Slot(h, power, k + 1);
    assert Reached(v, power, h, k + 1, next);
    WalkIsBounded(v, power, h, k + 1, next);
  }

  lemma {:induction false} StoredNameIsBound(v: seq<Named?>, m: map<string, Named>, s: nat)
    requires Represents(v, m) && s < |v| && v[s] != null
    ensures v[s].name in m && m[v[s].name] == v[s]
  {
  }

  lemma {:induction false} AbsentNameIsUnbound(v: seq<Named?>, m: map<string, Named>, name: string)
    requires Represents(v, m)
    ensures NotAmong(v, name) <==> name !in m
  {
    if name in m {
      var s :| 0 <= s < |v| && v[s] == m[name];
    }
  }

  ghost predicate Holds(v: seq<Named?>, n: nat, e: Named?)
    requires n <= |v|
  {
    exists s: nat | s < n :: v[s] == e
  }

  /** The first n slots of v have been entered in w. */
  ghost predicate Moved(hash: string -> nat, v: seq<Named?>, n: nat, w: seq<Named?>, power: nat)
    requires n <= |v|
  {
    && WellPlaced(hash, w, power)
    && |Occupied(w)| == |Occupied(v[..n])|
    && (forall t: nat | t < |w| && w[t] != null :: Holds(v, n, w[t]))
    && (forall s: nat | s < n && v[s] != null :: Holds(w, |w|, v[s]))
  }

  lemma {:induction false} MoveOne(hash: string -> nat, v: seq<Named?>, n: nat, w: seq<Named?>, power: nat, k: nat,
                                   j: nat)
    requires n < |v| && v[n] != null && Moved(hash, v, n, w, power)
    requires forall s: nat, t: nat | s < t < |v| && v[s] != null && v[t] != null :: v[s].name != v[t].name
    requires Reached(w, power, hash(v[n].name), k, j) && w[j] == null
    ensures Moved(hash, v, n + 1, w[j := v[n]], power)
  {
    forall t: nat | t < |w| && w[t] != null ensures w[t].name != v[n].name {
      assert Holds(v, n, w[t]);
    }
    PlacingKeepsOrder(hash, w, power, v[n], k, j);
    OccupiedGrows(v, n);
    HoldsMore(v, n, w, j);
  }

  lemma {:induction false} OccupiedGrows(v: seq<Named?>, n: nat)
    requires n < |v|
    ensures |Occupied(v[..n + 1])| == |Occupied(v[..n])| + if v[n] == null then 0 else 1
  {
    assert v[..n + 1] == v[..n] + [v[n]];
    assert Occupied(v[..n + 1]) == Occupied(v[..n]) + if v[n] == null then {} else {n};
  }

  lemma {:induction false} OccupiedIsSmall(v: seq<Named?>, n: nat)
    requires n <= |v|
    ensures |Occupied(v[..n])| <= n
    decreases n
  {
    if n > 0 {
      OccupiedIsSmall(v, n - 1);
      OccupiedGrows(v, n - 1);
    } else {
      assert Occupied(v[..0]) == {};
    }
  }

  lemma {:induction false} HoldsMore(v: seq<Named?>, n: nat, w: seq<Named?>, j: nat)
    requires n < |v| && j < |w| && w[j] == null && v[n] != null
    requires forall t: nat | t < |w| && w[t] != null :: Holds(v, n, w[t])
    requires forall s: nat | s < n && v[s] != null :: Holds(w, |w|, v[s])
    ensures var w' := w[j := v[n]];
            && (forall t: nat | t < |w'| && w'[t] != null :: Holds(v, n + 1, w'[t]))
            && (forall s: nat | s < n + 1 && v[s] != null :: Holds(w', |w'|, v[s]))
  {
    var w' := w[j := v[n]];
    assert w'[j] == v[n];
    forall s: nat | s < n && v[s] != null ensures Holds(w', |w'|, v[s]) {
      var t: nat :| t < |w| && w[t] == v[s];
      assert w'[t] == v[s];
    }
    forall t: nat | t < |w'| && w'[t] != null ensures Holds(v, n + 1, w'[t]) {
      if t != j {
        assert Holds(v, n, w[t]);
      }
    }
  }

  lemma {:induction false} SkipOne(hash: string -> nat, v: seq<Named?>, n: nat, w: seq<Named?>, power: nat)
    requires n < |v| && v[n] == null && Moved(hash, v, n, w, power)
    ensures Moved(hash, v, n + 1, w, power)
  {
    OccupiedGrows(v, n);
    forall t: nat | t < |w| && w[t] != null ensures Holds(v, n + 1, w[t]) {
      assert Holds(v, n, w[t]);
    }
  }

  lemma {:induction false} AllMoved(hash: string -> nat, v: seq<Named?>, power: nat, used: nat, m: map<string,
                                    Named>, w: seq<Named?>)
    requires InOrder(hash, v, power, used, m)
    requires Moved(hash, v, |v|, w, power + 1)
    ensures InOrder(hash, w, power + 1, used, m)
  {
    assert v[..|v|] == v;
    forall t: nat | t < |w| && w[t] != null ensures w[t].name in m && m[w[t].name] == w[t] {
      assert Holds(v, |v|, w[t]);
    }
    forall n | n in m ensures m[n] in w {
      var s :| 0 <= s < |v| && v[s] == m[n];
      assert Holds(w, |w|, v[s]);
    }
  }

  lemma {:induction false} PlacingKeepsTable(hash: string -> nat, v: seq<Named?>, power: nat, used: nat,
                                             m: map<string, Named>, e: Named, k: nat, s: nat)
    requires InOrder(hash, v, power, used, m) && used < Pow2(power - 1) && e.name !in m
    requires Reached(v, power, hash(e.name), k, s) && v[s] == null
    ensures InOrder(hash, v[s := e], power, used + 1, m[e.name := e])
  {
    PlacingKeepsOrder(hash, v, power, e, k, s);
    PlacingAddsBinding(v, m, e, s);
  }

  class HashTable {
    const hash: string -> nat
    var v: array?<Named?>
    var power: nat
    var size: nat
    var used: nat
    ghost var Contents: map<string, Named>

    ghost predicate Valid()
      reads this, v
    {
      if size == 0 then
        v == null && used == 0 && Contents == map[]
      else
        && v != null
        && size == v.Length
        && InOrder(hash, v[..], power, used, Contents)
    }

    constructor (hash: string -> nat)
      ensures Valid() && Contents == map[] && this.hash == hash
    {
      this.hash := hash;
      v := null;
      power, size, used := 0, 0, 0;
      Contents := map[];
    }

    /** The first free slot on the probe path of h, in an array with at least one. */
    static method FreeSlot(a: array<Named?>, h: nat, power: nat) returns (i: nat, ghost k: nat)
      requires power >= 2 && a.Length == Pow2(power)
      requires |Occupied(a[..])| < Pow2(power)
      ensures Reached(a[..], power, h, k, i) && a[i] == null
    {
      hide Reached;
      hide Occupied;
      var step := 0;
      k := 0;
      i := h % Pow2(power);
      PathIsReached(a[..], power, h);
      while a[i] != null
        invariant k <= |Occupied(a[..])|
        invariant i < a.Length && Reached(a[..], power, h, k, i)
        invariant step == 0 || step == Step(h, power)
        decreases Pow2(power) - k
      {
        if step == 0 {
          step := Step(h, power);
        }
        OneMoreStep(a[..], power, h, k, i);
        if i < step {
          i := i + a.Length - step;
        } else {
          i := i - step;
        }
        k := k + 1;
      }
    }

    /** Enters every entry of one array in another, empty one. */
    static method Rehash(hash: string -> nat, a: array<Named?>, newV: array<Named?>, newPower: nat)
      requires a != newV && newPower >= 2 && newV.Length == Pow2(newPower) && a.Length < newV.Length
      requires forall s: nat, t: nat | s < t < a.Length && a[s] != null && a[t] != null :: a[s].name != a[t].name
      requires forall s | 0 <= s < newV.Length :: newV[s] == null
      modifies newV
      ensures Moved(hash, old(a[..]), a.Length, newV[..], newPower)
    {
      ghost var v := a[..];
      assert Occupied(newV[..]) == {} && Occupied(v[..0]) == {};
      var i := 0;
      while i < a.Length
        invariant i <= a.Length && a[..] == v
        invariant Moved(hash, v, i, newV[..], newPower)
      {
        if a[i] != null {
          OccupiedIsSmall(v, i);
          var j, k := FreeSlot(newV, hash(a[i].name), newPower);
          MoveOne(hash, v, i, newV[..], newPower, k, j);
          ghost var before := newV[..];
          newV[j] := a[i];
          assert newV[..] == before[j := v[i]];
        } else {
          SkipOne(hash, v, i, newV[..], newPower);
        }
        i := i + 1;
      }
    }

    /** Moves every entry into a table of twice the size. */
    method Grow()
      requires Valid() && size > 0
      modifies this
      ensures Valid() && Contents == old(Contents) && used == old(used)
      ensures power == old(power) + 1 && size == 2 * old(size) && fresh(v)
    {
      hide InOrder;
      hide WellPlaced;
      hide Represents;
      hide Moved;
      hide Occupied;
      InOrderFacts(hash, v[..], power, used, Contents);
      var newPower := power + 1;
      var newV := new Named?[Pow2(newPower)](_ => null);
      Rehash(hash, v, newV, newPower);
      AllMoved(hash, v[..], power, used, Contents, newV[..]);
      v := newV;
      power := newPower;
      size := newV.Length;
    }

    /** Walks the probe path of a name up to its entry or to the first free slot. */
    method Walk(name: string) returns (i: nat, ghost k: nat)
      requires Valid() && size > 0
      ensures i < size
      ensures Reached(v[..], power, hash(name), k, i)
      ensures name in Contents ==> v[i] == Contents[name]
      ensures name !in Contents ==> v[i] == null && NotAmong(v[..], name)
    {
      hide Slot;
      hide NotAmong;
      hide Step;
      hide PassedBy;
      hide InOrder;
      hide WellPlaced;
      hide Represents;
      hide Reached;
      hide Occupied;
      var h := hash(name);
      var step := 0;
      k := 0;
      i := h % size;
      InOrderFacts(hash, v[..], power, used, Contents);
      PathIsReached(v[..], power, h);
      NonePassedBy(v[..], power, h, name);
      while v[i] != null
        invariant i < v.Length && Reached(v[..], power, h, k, i)
        invariant PassedBy(v[..], power, h, k, name)
        invariant step == 0 || step == Step(h, power)
        invariant k <= |Occupied(v[..])| < Pow2(power)
        decreases size - k
      {
        if v[i].name == name {
          StoredNameIsBound(v[..], Contents, i);
          return;
        }
        if step == 0 {
          step := Step(h, power);
        }
        OneMorePassed(v[..], power, h, k, i, name);
        OneMoreStep(v[..], power, h, k, i);
        if i < step {
          i := i + size - step;
        } else {
          i := i - step;
        }
        k := k + 1;
      }
      FreeSlotMeansAbsent(hash, v[..], power, name, k, i);
      AbsentNameIsUnbound(v[..], Contents, name);
    }

    /** Finds the entry of a name, or makes one when create is set. */
    method Lookup(name: string, create: bool) returns (entry: Named?)
      requires Valid()
      modifies this, v
      ensures Valid()
      ensures v == old(v) || fresh(v)
      ensures name in old(Contents) ==> entry == old(Contents)[name] && Contents == old(Contents)
      ensures name !in old(Contents) && !create ==> entry == null && Contents == old(Contents)
      ensures name !in old(Contents) && create ==>
                && fresh(entry) && entry.name == name
                && Contents == old(Contents)[name := entry]
                && used == old(used) + 1
    {
      var i;
      ghost var k;
      if size == 0 {
        if !create {
          return null;
        }
        i, k := Initialize(name);
      } else {
        i, k := Walk(name);
        if v[i] != null {
          return v[i];
        }
        if !create {
          return null;
        }
        i, k := MakeRoom(name, i, k);
      }
      entry := new Named(name);
      Place(entry, i, k);
    }

    /** Allocates the first array. */
    method Initialize(name: string) returns (i: nat, ghost k: nat)
      requires Valid() && size == 0
      modifies this
      ensures Valid() && size > 0 && fresh(v) && Contents == old(Contents) && used == old(used) < Pow2(power - 1)
      ensures Reached(v[..], power, hash(name), k, i) && v[i] == null
    {
      power := INIT_POWER;
      size := Pow2(INIT_POWER);
      v := new Named?[size](_ => null);
      i, k := hash(name) % size, 0;
      PathStart(hash(name), power);
      assert Occupied(v[..]) == {};
    }

    /** Grows the table when it is half full, and finds the free slot again. */
    method MakeRoom(name: string, i: nat, ghost k: nat) returns (i': nat, ghost k': nat)
      requires Valid() && size > 0
      requires i < size && Reached(v[..], power, hash(name), k, i) && v[i] == null
      modifies this
      ensures Valid() && size > 0 && (v == old(v) || fresh(v))
      ensures Contents == old(Contents) && used == old(used) < Pow2(power - 1)
      ensures i' < size && Reached(v[..], power, hash(name), k', i') && v[i'] == null
    {
      i', k' := i, k;
      if used >= Pow2(power - 1) {
        Grow();
        i', k' := FreeSlot(v, hash(name), power);
      }
    }

    /** Forgets every entry and keeps the array. */
    method Clear()
      requires Valid()
      modifies this, v
      ensures Valid() && Contents == map[] && v == old(v) && size == old(size)
    {
      if v != null {
        var i := 0;
        while i < size
          modifies v
          invariant i <= size
          invariant forall s | 0 <= s < i :: v[s] == null
        {
          v[i] := null;
          i := i + 1;
        }
        assert Occupied(v[..]) == {};
      }
      used := 0;
      Contents := map[];
    }

    /** Stores a new entry in a free slot of a table that is less than half full. */
    method Place(entry: Named, i: nat, ghost k: nat)
      requires Valid() && size > 0 && used < Pow2(power - 1)
      requires entry.name !in Contents
      requires Reached(v[..], power, hash(entry.name), k, i) && i < size && v[i] == null
      modifies this, v
      ensures Valid() && v == old(v)
      ensures Contents == old(Contents)[entry.name := entry]
      ensures used == old(used) + 1
    {
      hide InOrder;
      ghost var before := v[..];
      InOrderFacts(hash, before, power, used, Contents);
      PlacingKeepsTable(hash, before, power, used, Contents, entry, k, i);
      v[i] := entry;
      assert v[..] == before[i := entry];
      used := used + 1;
      Contents := Contents[entry.name := entry];
    }
  }

  /** The entries of a table in slot order. */
  ghost function Entries(v: seq<Named?>): seq<Named> {
    if v == [] then [] else (if v[0] == null then [] else [v[0]]) + Entries(v[1..])
  }

  ghost function Names(es: seq<Named>): set<string> {
    set e | e in es :: e.name
  }

  lemma {:induction false} EntriesAppend(v: seq<Named?>, e: Named?)
    ensures Entries(v + [e]) == Entries(v) + if e == null then [] else [e]
  {
    if v == [] {
      assert v + [e] == [e];
      assert [e][1..] == [];
    } else {
      EntriesAppend(v[1..], e);
      assert (v + [e])[1..] == v[1..] + [e];
    }
  }

  lemma {:induction false} EntriesCount(v: seq<Named?>, n: nat)
    requires n <= |v|
    ensures |Entries(v[..n])| == |Occupied(v[..n])|
  {
    if n == 0 {
      assert Occupied(v[..0]) == {};
    } else {
      EntriesCount(v, n - 1);
      assert v[..n] == v[..n - 1] + [v[n - 1]];
      EntriesAppend(v[..n - 1], v[n - 1]);
      OccupiedGrows(v, n - 1);
    }
  }

  lemma {:induction false} EntryIsStored(v: seq<Named?>, e: Named)
    ensures e in Entries(v) <==> Holds(v, |v|, e)
  {
    if v != [] {
      EntryIsStored(v[1..], e);
      if Holds(v[1..], |v[1..]|, e) {
        var s: nat :| s < |v[1..]| && v[1..][s] == e;
        assert v[s + 1] == e;
      }
      if Holds(v, |v|, e) && v[0] != e {
        var s: nat :| s < |v| && v[s] == e;
        assert v[1..][s - 1] == e;
      }
    }
  }

  lemma {:induction false} EntriesDiffer(v: seq<Named?>)
    requires forall s: nat, t: nat | s < t < |v| && v[s] != null && v[t] != null :: v[s].name != v[t].name
    ensures forall i, j | 0 <= i < j < |Entries(v)| :: Entries(v)[i].name != Entries(v)[j].name
  {
    if v != [] {
      var rest := v[1..];
      EntriesDiffer(rest);
      if v[0] != null {
        forall j | 0 <= j < |Entries(rest)| ensures v[0].name != Entries(rest)[j].name {
          EntryIsStored(rest, Entries(rest)[j]);
          var s: nat :| s < |rest| && rest[s] == Entries(rest)[j];
          assert v[s + 1] == Entries(rest)[j];
        }
        assert Entries(v) == [v[0]] + Entries(rest);
      }
    }
  }

  lemma {:induction false} DistinctNamesCount(es: seq<Named>)
    requires forall i, j | 0 <= i < j < |es| :: es[i].name != es[j].name
    ensures |Names(es)| == |es|
  {
    if es == [] {
      assert Names(es) == {};
    } else {
      DistinctNamesCount(es[1..]);
      assert es == [es[0]] + es[1..];
      assert Names(es) == {es[0].name} + Names(es[1..]);
    }
  }

  /** Going through the slots meets every binding of the map exactly once. */
  lemma {:induction false} IterationIsExact(hash: string -> nat, v: seq<Named?>, power: nat, used: nat,
                                            m: map<string, Named>)
    requires InOrder(hash, v, power, used, m)
    ensures |Entries(v)| == used == |m|
    ensures forall i, j | 0 <= i < j < |Entries(v)| :: Entries(v)[i].name != Entries(v)[j].name
    ensures forall e :: e in Entries(v) <==> e.name in m && m[e.name] == e
  {
    EntriesDiffer(v);
    EntriesCount(v, |v|);
    assert v[..|v|] == v;
    forall e: Named ensures e in Entries(v) <==> e.name in m && m[e.name] == e {
      EntryIsStored(v, e);
      if Holds(v, |v|, e) {
        var s: nat :| s < |v| && v[s] == e;
        StoredNameIsBound(v, m, s);
      }
      if e.name in m && m[e.name] == e {
        assert e in v;
        assert Holds(v, |v|, e);
      }
    }
    DistinctNamesCount(Entries(v));
    assert Names(Entries(v)) == m.Keys by {
      forall n | n in m ensures n in Names(Entries(v)) {
        assert m[n] in Entries(v);
      }
    }
  }

  /** A position in a table; the table must not change while it is in use. */
  class HashTableIter {
    const v: array?<Named?>
    var p: nat
    const end: nat

    ghost predicate Valid()
      reads this, v
    {
      p <= end && (if v == null then end == 0 else end == v.Length)
    }

    ghost function Remaining(): seq<Named>
      requires Valid()
      reads this, v
    {
      if v == null then [] else Entries(v[..][p..])
    }

    constructor (table: HashTable)
      requires table.Valid()
      ensures Valid() && v == table.v && p == 0
      ensures Remaining() == if table.v == null then [] else Entries(table.v[..])
    {
      v := table.v;
      p := 0;
      end := table.size;
      new;
      if v != null {
        assert v[..][0..] == v[..];
      }
    }

    method Next() returns (entry: Named?)
      requires Valid()
      modifies this
      ensures Valid()
      ensures if old(Remaining()) == [] then entry == null && Remaining() == []
              else entry == old(Remaining())[0] && Remaining() == old(Remaining())[1..]
    {
      hide Entries;
      while p != end
        invariant Valid() && Remaining() == old(Remaining())
        decreases end - p
      {
        var tem := v[p];
        NextEntry(v[..], p);
        p := p + 1;
        if tem != null {
          return tem;
        }
      }
      entry := null;
      if v != null {
        NoEntryLeft(v[..]);
      }
    }
  }

  lemma {:induction false} NoEntryLeft(v: seq<Named?>)
    ensures Entries(v[|v|..]) == []
  {
  }

  lemma {:induction false} NextEntry(v: seq<Named?>, p: nat)
    requires p < |v|
    ensures Entries(v[p..]) == (if v[p] == null then [] else [v[p]]) + Entries(v[p + 1..])
  {
    assert v[p..][1..] == v[p + 1..];
  }

  lemma {:induction false} PlacingAddsBinding(v: seq<Named?>, m: map<string, Named>, e: Named, s: nat)
    requires Represents(v, m) && s < |v| && v[s] == null && NotAmong(v, e.name)
    ensures Represents(v[s := e], m[e.name := e])
  {
    var w := v[s := e];
    var m' := m[e.name := e];
    forall n | n in m' ensures m'[n] in w {
      if n == e.name {
        assert w[s] == e;
      } else {
        var t :| 0 <= t < |v| && v[t] == m[n];
        assert w[t] == m[n];
      }
    }
  }
}
