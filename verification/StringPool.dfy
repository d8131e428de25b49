/** The string pool (xmlparse.c, STRING_POOL): strings that grow and then stay where they are.

    Memory blocks are numbered, and an address is a block number and an offset.  A block that
    realloc enlarges gets a new number, so that whatever pointed into it is lost. */
module StringPools {

  const INIT_BLOCK_SIZE: nat := 1024

  /** A finished string: its address and its characters. */
  datatype Finished = Finished(block: nat, at: nat, text: string)

  /** The string lies in one of the blocks in use, before what is still growing in the first one. */
  predicate Stays(memory: seq<string>, blocks: seq<nat>, start: nat, f: Finished) {
    && |f.text| > 0 && f.block in blocks && f.block < |memory|
    && f.at + |f.text| <= |memory[f.block]| && memory[f.block][f.at..f.at + |f.text|] == f.text
    && (|blocks| > 0 && f.block == blocks[0] ==> f.at + |f.text| <= start)
  }

  predicate Distinct(s: seq<nat>) {
    forall i, j | 0 <= i < j < |s| :: s[i] != s[j]
  }

  predicate Held(memory: seq<string>, s: seq<nat>) {
    forall i | 0 <= i < |s| :: s[i] < |memory| && |memory[s[i]]| > 0
  }

  class Pool {
    var memory: seq<string>
    var blocks: seq<nat>
    var freeBlocks: seq<nat>
    var start: nat
    var ptr: nat
    var end: nat
    ghost var finished: seq<Finished>

    /** The first block holds the growing string between start and ptr; no block is on two lists. */
    ghost predicate Valid()
      reads this
    {
      && Held(memory, blocks) && Held(memory, freeBlocks)
      && Distinct(blocks + freeBlocks)
      && (if |blocks| == 0 then start == ptr == end == 0 else start <= ptr <= end == |memory[blocks[0]]|)
      && forall i | 0 <= i < |finished| :: Stays(memory, blocks, start, finished[i])
    }

    /** The characters of the string that is still growing. */
    ghost function Growing(): string
      requires Valid()
      reads this
    {
      if |blocks| == 0 then "" else memory[blocks[0]][start..ptr]
    }

    constructor ()
      ensures Valid() && blocks == [] && freeBlocks == [] && finished == []
    {
      memory, blocks, freeBlocks := [], [], [];
      start, ptr, end := 0, 0, 0;
      finished := [];
    }

    /**
     * poolGrow: more room for the growing string, which keeps its characters; the finished strings
     * keep address and contents.
     */
    method Grow()
      requires Valid()
      modifies this`memory, this`blocks, this`freeBlocks, this`start, this`ptr, this`end
      ensures Valid() && Growing() == old(Growing()) && |blocks| > 0
      ensures end - start > old(end - start) && ptr - start == old(ptr - start)
    {
      if |freeBlocks| > 0 {
        if |blocks| == 0 {
          TakeFirst();
          return;
        }
        if end - start < |memory[freeBlocks[0]]| {
          MoveToFree();
          return;
        }
      }
      if |blocks| > 0 && start == 0 {
        Reallocate();
      } else {
        var blockSize := end - start;
        if blockSize < INIT_BLOCK_SIZE {
          blockSize := INIT_BLOCK_SIZE;
        } else {
          blockSize := blockSize * 2;
        }
        MoveToNew(blockSize);
      }
    }

    /** An empty pool takes the first free block. */
    method TakeFirst()
      requires Valid() && |blocks| == 0 && |freeBlocks| > 0
      modifies this`blocks, this`freeBlocks, this`start, this`ptr, this`end
      ensures Valid() && Growing() == "" && |blocks| > 0 && start == ptr == 0 < end
    {
      var b := freeBlocks[0];
      assert blocks + freeBlocks == freeBlocks == [b] + freeBlocks[1..];
      blocks, freeBlocks := [b], freeBlocks[1..];
      start, ptr, end := 0, 0, |memory[b]|;
      NothingStays(finished, memory, []);
    }

    /** The growing string moves into a larger free block. */
    method MoveToFree()
      requires Valid() && |blocks| > 0 && |freeBlocks| > 0 && end - start < |memory[freeBlocks[0]]|
      modifies this`memory, this`blocks, this`freeBlocks, this`start, this`ptr, this`end
      ensures Valid() && Growing() == old(Growing()) && |blocks| > 0
      ensures end - start > old(end - start) && ptr - start == old(ptr - start)
    {
      var b := freeBlocks[0];
      var text := memory[blocks[0]][start..end];
      FirstFree(blocks, freeBlocks);
      var filled := text + memory[b][|text|..];
      MovedStays(finished, memory, blocks, start, b, filled);
      assert memory[blocks[0]][start..ptr] == filled[..ptr - start];
      memory := memory[b := filled];
      blocks, freeBlocks := [b] + blocks, freeBlocks[1..];
      start, ptr, end := 0, ptr - start, |filled|;
    }

    /** realloc of the first block, when nothing but the growing string is in it. */
    method Reallocate()
      requires Valid() && |blocks| > 0 && start == 0
      modifies this`memory, this`blocks, this`ptr, this`end
      ensures Valid() && Growing() == old(Growing()) && |blocks| > 0
      ensures end - start > old(end - start) && ptr - start == old(ptr - start)
    {
      var b := |memory|;
      var moved := memory[blocks[0]] + seq(end, _ => '\0');
      ReplacedFirst(blocks, freeBlocks, b);
      RestStays(finished, memory, blocks, b, moved);
      assert moved[..ptr] == memory[blocks[0]][..ptr];
      memory := memory + [moved];
      blocks := [b] + blocks[1..];
      end := |moved|;
    }

    /** malloc of a new block, into which the growing string moves. */
    method MoveToNew(blockSize: nat)
      requires Valid() && blockSize > end - start
      modifies this`memory, this`blocks, this`start, this`ptr, this`end
      ensures Valid() && Growing() == old(Growing()) && |blocks| > 0
      ensures end - start > old(end - start) && ptr - start == old(ptr - start)
    {
      var b := |memory|;
      var text := if |blocks| == 0 then "" else memory[blocks[0]][start..ptr];
      var filled := text + seq(blockSize - |text|, _ => '\0');
      AddedFirst(blocks, freeBlocks, b);
      MovedStays(finished, memory + [filled], blocks, start, b, filled);
      assert filled[..|text|] == text;
      assert (memory + [filled])[b := filled] == memory + [filled];
      memory := memory + [filled];
      blocks := [b] + blocks;
      start, ptr, end := 0, ptr - start, blockSize;
    }

    /** The character goes behind the growing string, where there is room for it. */
    method AppendFitting(c: char)
      requires Valid() && |blocks| > 0 && ptr < end
      modifies this`memory, this`ptr
      ensures Valid() && Growing() == old(Growing()) + [c] && ptr == old(ptr) + 1
    {
      WrittenStays(finished, memory, blocks, start, ptr, c);
      var b := blocks[0];
      assert memory[b][ptr := c][start..ptr + 1] == memory[b][start..ptr] + [c];
      memory := memory[b := memory[b][ptr := c]];
      ptr := ptr + 1;
    }

    /** poolAppendChar */
    method AppendChar(c: char)
      requires Valid()
      modifies this`memory, this`blocks, this`freeBlocks, this`start, this`ptr, this`end
      ensures Valid() && Growing() == old(Growing()) + [c] && |blocks| > 0
    {
      if ptr == end {
        Grow();
      }
      AppendFitting(c);
    }

    /** poolFinish: the growing string is finished, and a new one begins behind it; an empty one leaves no trace. */
    method Finish() returns (ghost f: Finished)
      requires Valid()
      modifies this`start, this`finished
      ensures Valid() && Growing() == "" && f.text == old(Growing())
      ensures finished == old(finished) + if f.text == "" then [] else [f]
    {
      f := Finished(if |blocks| > 0 then blocks[0] else 0, start, Growing());
      if f.text == "" {
        assert finished + [] == finished;
      } else {
        finished := finished + [f];
      }
      start := ptr;
    }

    /** poolDiscard */
    method Discard()
      requires Valid()
      modifies this`ptr
      ensures Valid() && Growing() == ""
    {
      ptr := start;
    }

    /** poolChop */
    method Chop()
      requires Valid() && Growing() != ""
      modifies this`ptr
      ensures Valid() && Growing() == old(Growing()[..|Growing()| - 1])
    {
      ptr := ptr - 1;
    }

    /** poolCopyString: the characters and the terminating zero, as one finished string. */
    method CopyString(s: string) returns (ghost f: Finished)
      requires Valid() && Growing() == ""
      modifies this
      ensures Valid() && Growing() == "" && f.text == s + ['\0'] && finished == old(finished) + [f]
    {
      var i := 0;
      while i < |s|
        invariant 0 <= i <= |s| && Valid() && Growing() == s[..i] && finished == old(finished)
      {
        AppendChar(s[i]);
        i := i + 1;
      }
      AppendChar('\0');
      f := Finish();
    }

    /** poolCopyStringN: the first n characters, as one finished string unless there are none. */
    method CopyStringN(s: string, n: nat) returns (ghost f: Finished)
      requires Valid() && Growing() == "" && n <= |s|
      modifies this
      ensures Valid() && Growing() == "" && f.text == s[..n]
      ensures finished == old(finished) + if n == 0 then [] else [f]
    {
      if |blocks| == 0 {
        Grow();
      }
      var i := 0;
      while i < n
        invariant 0 <= i <= n && Valid() && Growing() == s[..i] && finished == old(finished)
      {
        AppendChar(s[i]);
        i := i + 1;
      }
      f := Finish();
    }

    /** One call of the converter: copies what fits, but for the characters of which a part would not. */
    method Convert(s: string, from: nat) returns (next: nat)
      requires Valid() && |blocks| > 0 && from <= |s|
      modifies this`memory, this`ptr
      ensures Valid() && from <= next <= |s| && Growing() == old(Growing()) + s[from..next]
      ensures ptr - start == old(ptr - start) + (next - from)
      ensures |s| - from <= old(end - ptr) ==> next == |s|
      ensures end == old(end) && start == old(start) && ptr <= end
    {
      var lim := |s|;
      if lim - from > end - ptr {
        lim := from + (end - ptr);
        while lim > from && 0x80 <= s[lim - 1] as int < 0xc0
          invariant from <= lim <= from + (end - ptr) && lim <= |s|
        {
          lim := lim - 1;
        }
      }
      next := from;
      assert s[from..from] == [];
      while next < lim
        invariant from <= next <= lim && Valid() && Growing() == old(Growing()) + s[from..next]
        invariant ptr - start == old(ptr - start) + (next - from)
      {
        assert s[from..next + 1] == s[from..next] + [s[next]];
        AppendFitting(s[next]);
        next := next + 1;
      }
    }

    /** One more round of poolAppend. */
    method AppendMore(s: string, from: nat, ghost was: string) returns (next: nat)
      requires Valid() && |blocks| > 0 && from < |s| && Growing() == was + s[..from]
      modifies this`memory, this`blocks, this`freeBlocks, this`start, this`ptr, this`end
      ensures Valid() && |blocks| > 0 && from <= next <= |s| && Growing() == was + s[..next]
      ensures next < |s| ==> 0 < |s| - from - old(end - ptr) && |s| - next - (end - ptr) < |s| - from - old(end - ptr)
    {
      hide Stays;
      hide Held;
      hide Distinct;
      Grow();
      next := Convert(s, from);
      assert s[..next] == s[..from] + s[from..next];
    }

    /** poolAppend: converts and grows in turn until everything has been appended. */
    method Append(s: string)
      requires Valid()
      modifies this`memory, this`blocks, this`freeBlocks, this`start, this`ptr, this`end
      ensures Valid() && Growing() == old(Growing()) + s
    {
      hide Stays;
      hide Held;
      hide Distinct;
      ghost var was := Growing();
      if |blocks| == 0 {
        Grow();
      }
      var i := Convert(s, 0);
      assert s[..i] == s[0..i];
      while i < |s|
        invariant 0 <= i <= |s| && Valid() && |blocks| > 0 && Growing() == was + s[..i]
        decreases i < |s|, |s| - i - (end - ptr)
      {
        i := AppendMore(s, i, was);
      }
      assert s[..i] == s;
    }

    /** poolStoreString: the characters and a zero, still growing. */
    method StoreString(s: string)
      requires Valid()
      modifies this`memory, this`blocks, this`freeBlocks, this`start, this`ptr, this`end
      ensures Valid() && Growing() == old(Growing()) + s + ['\0']
    {
      Append(s);
      AppendChar('\0');
    }

    /** A name is stored to be looked up, and kept only when it is new (getElementType, getAttributeId). */
    method Intern(s: string, known: bool)
      requires Valid() && Growing() == ""
      modifies this
      ensures Valid() && Growing() == ""
      ensures known ==> finished == old(finished)
      ensures !known ==> exists f :: finished == old(finished) + [f] && f.text == s + ['\0']
    {
      StoreString(s);
      if known {
        Discard();
      } else {
        ghost var f := Finish();
      }
    }

    /** poolClear: the strings are gone, and every block is free. */
    method Clear()
      requires Valid()
      modifies this`blocks, this`freeBlocks, this`start, this`ptr, this`end, this`finished
      ensures Valid() && blocks == [] && finished == []
      ensures multiset(freeBlocks) == old(multiset(freeBlocks) + multiset(blocks))
    {
      finished := [];
      if |freeBlocks| == 0 {
        assert blocks + freeBlocks == blocks == [] + blocks;
        freeBlocks := blocks;
      } else {
        FreeEach();
      }
      blocks := [];
      start, ptr, end := 0, 0, 0;
    }

    /** Every block in use goes to the head of the free list. */
    method FreeEach()
      requires Held(memory, blocks) && Held(memory, freeBlocks) && Distinct(blocks + freeBlocks)
      modifies this`freeBlocks
      ensures Held(memory, freeBlocks) && Distinct([] + freeBlocks)
      ensures multiset(freeBlocks) == old(multiset(freeBlocks) + multiset(blocks))
    {
      hide Distinct;
      var p: seq<nat> := blocks;
      while |p| > 0
        invariant Distinct(p + freeBlocks) && Held(memory, p) && Held(memory, freeBlocks)
        invariant multiset(freeBlocks) + multiset(p) == old(multiset(freeBlocks) + multiset(blocks))
        decreases |p|
      {
        assert p == [p[0]] + p[1..];
        FirstMoves(p, freeBlocks);
        freeBlocks, p := [p[0]] + freeBlocks, p[1..];
      }
      assert p + freeBlocks == [] + freeBlocks;
    }
  }

  // ----- finished strings stay -----

  lemma {:induction false} NothingStays(finished: seq<Finished>, memory: seq<string>, blocks: seq<nat>)
    requires blocks == [] && forall i | 0 <= i < |finished| :: Stays(memory, blocks, 0, finished[i])
    ensures finished == []
  {
    assert |finished| > 0 ==> Stays(memory, blocks, 0, finished[0]);
  }

  /** A new first block changes no finished string. */
  lemma {:induction false} MovedStays(finished: seq<Finished>, memory: seq<string>, blocks: seq<nat>, start: nat,
                                      b: nat, filled: string)
    requires b < |memory| && b !in blocks && forall i | 0 <= i < |finished| :: finished[i].block != b ==>
        Stays(memory, blocks, start, finished[i])
    requires forall i | 0 <= i < |finished| :: finished[i].block in blocks
    ensures forall i | 0 <= i < |finished| :: Stays(memory[b := filled], [b] + blocks, 0, finished[i])
  {
    forall i | 0 <= i < |finished|
      ensures Stays(memory[b := filled], [b] + blocks, 0, finished[i])
    {
      assert Stays(memory, blocks, start, finished[i]);
    }
  }

  /** Nothing finished lies in a block whose growing string begins at its start. */
  lemma {:induction false} RestStays(finished: seq<Finished>, memory: seq<string>, blocks: seq<nat>, b: nat,
                                     moved: string)
    requires |blocks| > 0 && b == |memory| && forall i | 0 <= i < |finished| :: Stays(memory, blocks, 0, finished[i])
    ensures forall i | 0 <= i < |finished| :: Stays(memory + [moved], [b] + blocks[1..], 0, finished[i])
  {
    forall i | 0 <= i < |finished|
      ensures Stays(memory + [moved], [b] + blocks[1..], 0, finished[i])
    {
      assert Stays(memory, blocks, 0, finished[i]);
      assert finished[i].block in blocks[1..];
    }
  }

  /** Writing behind the growing string touches no finished one. */
  lemma {:induction false} WrittenStays(finished: seq<Finished>, memory: seq<string>, blocks: seq<nat>, start: nat,
                                        at: nat, c: char)
    requires |blocks| > 0 && blocks[0] < |memory| && start <= at < |memory[blocks[0]]|
    requires forall i | 0 <= i < |finished| :: Stays(memory, blocks, start, finished[i])
    ensures forall i | 0 <= i < |finished| ::
        Stays(memory[blocks[0] := memory[blocks[0]][at := c]], blocks, start, finished[i])
  {
    forall i | 0 <= i < |finished|
      ensures Stays(memory[blocks[0] := memory[blocks[0]][at := c]], blocks, start, finished[i])
    {
      assert Stays(memory, blocks, start, finished[i]);
    }
  }

  // ----- the lists of blocks -----

  lemma {:induction false} FirstFree(blocks: seq<nat>, free: seq<nat>)
    requires |free| > 0 && Distinct(blocks + free)
    ensures free[0] !in blocks && Distinct([free[0]] + blocks + free[1..])
  {
    var s, t := blocks + free, [free[0]] + blocks + free[1..];
    assert s[|blocks|] == free[0];
    forall i | 0 <= i < |blocks|
      ensures blocks[i] != free[0]
    {
      assert s[i] == blocks[i];
    }
    forall i, j | 0 <= i < j < |t|
      ensures t[i] != t[j]
    {
      assert t[j] == s[if j <= |blocks| then j - 1 else j];
      assert t[i] == s[if i == 0 then |blocks| else if i <= |blocks| then i - 1 else i];
    }
  }

  lemma {:induction false} FirstMoves(p: seq<nat>, free: seq<nat>)
    requires |p| > 0 && Distinct(p + free)
    ensures Distinct(p[1..] + ([p[0]] + free))
  {
    var s, t := p + free, p[1..] + ([p[0]] + free);
    forall i, j | 0 <= i < j < |t|
      ensures t[i] != t[j]
    {
      assert t[i] == s[if i < |p| - 1 then i + 1 else if i == |p| - 1 then 0 else i];
      assert t[j] == s[if j < |p| - 1 then j + 1 else if j == |p| - 1 then 0 else j];
    }
  }

  lemma {:induction false} AddedFirst(blocks: seq<nat>, free: seq<nat>, b: nat)
    requires Distinct(blocks + free)
    requires (forall i | 0 <= i < |blocks| :: blocks[i] < b) && forall i | 0 <= i < |free| :: free[i] < b
    ensures b !in blocks && Distinct([b] + blocks + free)
  {
    var s, t := blocks + free, [b] + blocks + free;
    forall i, j | 0 <= i < j < |t|
      ensures t[i] != t[j]
    {
      assert t[j] == s[j - 1] && (i > 0 ==> t[i] == s[i - 1]);
      assert s[j - 1] == if j - 1 < |blocks| then blocks[j - 1] else free[j - 1 - |blocks|];
    }
  }

  lemma {:induction false} ReplacedFirst(blocks: seq<nat>, free: seq<nat>, b: nat)
    requires |blocks| > 0 && Distinct(blocks + free)
    requires (forall i | 0 <= i < |blocks| :: blocks[i] < b) && forall i | 0 <= i < |free| :: free[i] < b
    ensures Distinct([b] + blocks[1..] + free)
  {
    var s, t := blocks + free, [b] + blocks[1..] + free;
    assert forall i | 0 <= i < |s| :: s[i] < b;
    assert forall i | 0 < i < |t| :: t[i] == s[i];
  }
}
