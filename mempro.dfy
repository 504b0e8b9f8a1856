// The core data structures of the MemPro memory profiler client: address
// obfuscation, the 4-byte padding of strings sent to the server, the ring
// buffer whose used range is packed into one 64-bit word, the bump block
// allocator, the page list that stores data before a connection exists, and
// the set of callstacks, an open-addressing hash table with linear probing.
// Threads, events, sockets and the platform allocator are not modelled: each
// operation runs alone, and a fresh block or page is a parameter.

module MemPro {
  import opened Wrappers

  // ---------------------------------------------------------------------------------
  // Address obfuscation

  const AddressMask: bv64 := 0x1234_5678_abcd_ef12

  /** Addresses are sent XOR-ed with a fixed mask. */
  function ObfuscateAddress(addr: bv64): (r: bv64)
    ensures r != addr
    ensures r ^ AddressMask == addr
  {
    addr ^ AddressMask
  }

  /** The server undoes the obfuscation with the same operation. */
  function UnobfuscateAddress(addr: bv64): (r: bv64)
    ensures ObfuscateAddress(r) == addr
  {
    ObfuscateAddress(addr)
  }

  /** Obfuscation loses nothing: unobfuscating gives back every address, and distinct addresses stay distinct. */
  lemma ObfuscationRoundTrip(addr: bv64, other: bv64)
    ensures UnobfuscateAddress(ObfuscateAddress(addr)) == addr
    ensures addr != other ==> ObfuscateAddress(addr) != ObfuscateAddress(other)
  {
  }

  // ---------------------------------------------------------------------------------
  // Strings

  const MaxPathLen: nat := 1024

  /**
   * The length a string of len bytes (terminator included) is sent with:
   * len + 3 with its two low bits cleared, the next multiple of 4.
   */
  function PaddedLength(len: bv32): (r: bv32)
    requires len <= 1024
    ensures r & 3 == 0 && len <= r < len + 4
  {
    (len + 3) & !3
  }

  // ---------------------------------------------------------------------------------
  // Ring buffer

  const Two32: nat := 0x1_0000_0000
  const Two64: nat := 0x1_0000_0000_0000_0000

  /** The start of the used range, the high half of the packed word. */
  function RangeStart(range: nat): nat
  {
    range / Two32
  }

  /** The length of the used range, the low half of the packed word. */
  function RangeSize(range: nat): nat
  {
    range % Two32
  }

  lemma DivModUnique(a: int, d: int, q: int, r: int)
    requires d >= 1 && a == q * d + r && 0 <= r < d
    ensures a / d == q && a % d == r
  {
    var q', r' := a / d, a % d;
    var x := q - q';
    assert x * d == r' - r by {
      assert q * d + r == q' * d + r';
    }
  }

  /** A start and a length packed into one word, the start in the high half. */
  function PackRange(start: nat, size: nat): (range: nat)
    requires start < Two32 && size < Two32
    ensures range < Two64 && RangeStart(range) == start && RangeSize(range) == size
  {
    DivModUnique(start * Two32 + size, Two32, start, size);
    start * Two32 + size
  }

  /** A region of the buffer: where it begins and how many bytes it holds. */
  datatype Range = Range(offset: nat, size: nat)

  /**
   * The source asserts the buffer size is a power of two; `& (size - 1)` is then `% size`.
   * The source's bit test also accepts 0; 0 is excluded here on purpose, because
   * no size or capacity it is asked about is 0 and `% 0` has no meaning.
   */
  predicate IsPow2(n: nat)
  {
    if n <= 1 then n == 1 else n % 2 == 0 && IsPow2(n / 2)
  }

  /**
   * The largest free region that does not wrap: it begins where the used
   * range ends and stops at the used range's start or at the buffer's end.
   * None when the buffer is full (the source waits for the sender and, on a
   * timeout, returns an empty range).
   */
  function FreeRange(start: nat, used: nat, bufferSize: nat): (r: Option<Range>)
    requires start < bufferSize && used <= bufferSize
    ensures r.None? <==> used == bufferSize
    ensures r.Some? ==> r.value.offset == (start + used) % bufferSize &&
                        0 < r.value.size && r.value.offset + r.value.size <= bufferSize &&
                        r.value.size <= bufferSize - used
  {
    if used == bufferSize then None
    else
      var freeStart := (start + used) % bufferSize;
      WrapOnce(start + used, bufferSize);
      var freeSize := if freeStart < start then start - freeStart else bufferSize - freeStart;
      Some(Range(freeStart, freeSize))
  }

  /** A sum of two positions inside the buffer wraps at most once. */
  lemma WrapOnce(x: nat, bufferSize: nat)
    requires 0 < bufferSize && x < 2 * bufferSize
    ensures x % bufferSize == if x >= bufferSize then x - bufferSize else x
  {
    if x >= bufferSize {
      DivModUnique(x, bufferSize, 1, x - bufferSize);
    } else {
      DivModUnique(x, bufferSize, 0, x);
    }
  }

  /**
   * The largest used region that does not wrap: it begins at the used
   * range's start. None when the buffer is empty.
   */
  function AllocatedRange(start: nat, used: nat, bufferSize: nat): (r: Option<Range>)
    requires start < bufferSize && used <= bufferSize
    ensures r.None? <==> used == 0
    ensures r.Some? ==> r.value.offset == start && 0 < r.value.size &&
                        r.value.size == Min(used, bufferSize - start)
  {
    if used == 0 then None
    else Some(Range(start, if used > bufferSize - start then bufferSize - start else used))
  }

  /** The free and the used regions never overlap. */
  lemma FreeAndAllocatedDisjoint(start: nat, used: nat, bufferSize: nat)
    requires start < bufferSize && used <= bufferSize
    requires FreeRange(start, used, bufferSize).Some? && AllocatedRange(start, used, bufferSize).Some?
    ensures var f, u := FreeRange(start, used, bufferSize).value, AllocatedRange(start, used, bufferSize).value;
            f.offset + f.size <= u.offset || u.offset + u.size <= f.offset
  {
    WrapOnce(start + used, bufferSize);
  }

  /**
   * The ring buffer the profiler writes to and the send thread reads from.
   * The used range (start, length) is packed into one 64-bit word so that it
   * can be replaced atomically.
   */
  class RingBuffer {
    const size: nat
    var usedRange: nat

    ghost predicate Valid()
      reads this
    {
      IsPow2(size) && size < Two32 && usedRange < Two64 &&
      RangeStart(usedRange) < size && RangeSize(usedRange) <= size
    }

    constructor (bufferSize: nat)
      requires IsPow2(bufferSize) && bufferSize < Two32
      ensures Valid() && size == bufferSize && RangeStart(usedRange) == 0 && RangeSize(usedRange) == 0
    {
      size := bufferSize;
      usedRange := 0;
    }

    /** Records n more bytes written at the end of the used range; the start stays. */
    method Add(n: nat)
      requires Valid() && RangeSize(usedRange) + n <= size
      modifies this
      ensures Valid()
      ensures RangeStart(usedRange) == RangeStart(old(usedRange)) && RangeSize(usedRange) == RangeSize(old(usedRange)) + n
    {
      var usedSize := RangeSize(usedRange) + n;
      usedRange := PackRange(RangeStart(usedRange), usedSize);
    }

    /** Records n bytes consumed from the start of the used range: the start moves on, wrapping at the end. */
    method Remove(n: nat)
      requires Valid() && n <= RangeSize(usedRange)
      modifies this
      ensures Valid()
      ensures RangeStart(usedRange) == (RangeStart(old(usedRange)) + n) % size
      ensures RangeSize(usedRange) == RangeSize(old(usedRange)) - n
    {
      var usedStart := (RangeStart(usedRange) + n) % size;
      var usedSize := RangeSize(usedRange) - n;
      usedRange := PackRange(usedStart, usedSize);
    }

    /** Empties the buffer. */
    method Clear()
      requires Valid()
      modifies this
      ensures Valid() && RangeStart(usedRange) == 0 && RangeSize(usedRange) == 0
    {
      usedRange := 0;
    }
  }

  // ---------------------------------------------------------------------------------
  // Block allocator

  const BlockSize: nat := 1024 * 1024

  /** The allocator's state: the current block, if any, and how much of it is used. */
  datatype BlockState = BlockState(curBlock: Option<nat>, usage: nat)

  /** A bump allocation: the block and the offset inside it. */
  datatype BlockAddress = BlockAddress(block: nat, offset: nat)

  /**
   * Allocates `size` bytes: in the current block when they fit, otherwise in
   * the fresh block `newBlock` from the start. Memory is never given back.
   */
  function BlockAlloc(s: BlockState, size: nat, newBlock: nat): (r: (BlockState, BlockAddress))
    requires size < BlockSize && s.usage <= BlockSize
    ensures r.1.offset + size <= BlockSize && r.0.usage == r.1.offset + size
    ensures r.0.curBlock == Some(r.1.block)
    ensures s.curBlock.Some? && size <= BlockSize - s.usage ==> r.1 == BlockAddress(s.curBlock.value, s.usage)
    ensures s.curBlock.None? || size > BlockSize - s.usage ==> r.1 == BlockAddress(newBlock, 0)
  {
    var s' := if s.curBlock.None? || size > BlockSize - s.usage then BlockState(Some(newBlock), 0) else s;
    (BlockState(s'.curBlock, s'.usage + size), BlockAddress(s'.curBlock.value, s'.usage))
  }

  /** Two successive allocations never overlap. */
  lemma BlockAllocationsDisjoint(s: BlockState, size1: nat, block1: nat, size2: nat, block2: nat)
    requires size1 < BlockSize && size2 < BlockSize && s.usage <= BlockSize
    requires block1 != block2 && s.curBlock != Some(block2)
    ensures var first := BlockAlloc(s, size1, block1);
            var second := BlockAlloc(first.0, size2, block2);
            first.1.block != second.1.block || first.1.offset + size1 <= second.1.offset
  {
  }

  class BlockAllocator {
    var curBlock: Option<nat>
    var curBlockUsage: nat

    ghost predicate Valid()
      reads this
    {
      curBlockUsage <= BlockSize && (curBlock.None? ==> curBlockUsage == 0)
    }

    constructor ()
      ensures Valid() && curBlock == None && curBlockUsage == 0
    {
      curBlock := None;
      curBlockUsage := 0;
    }

    /** Bump allocation; `newBlock` is the block the platform allocator would return. */
    method Alloc(size: nat, newBlock: nat) returns (p: BlockAddress)
      requires Valid() && size < BlockSize
      modifies this
      ensures Valid()
      ensures var r := BlockAlloc(BlockState(old(curBlock), old(curBlockUsage)), size, newBlock);
              p == r.1 && curBlock == r.0.curBlock && curBlockUsage == r.0.usage
    {
      if curBlock.None? || size > BlockSize - curBlockUsage {
        curBlock := Some(newBlock);
        curBlockUsage := 0;
      }
      p := BlockAddress(curBlock.value, curBlockUsage);
      curBlockUsage := curBlockUsage + size;
    }
  }

  // ---------------------------------------------------------------------------------
  // Data store

  const DataStorePageSize: nat := 4096
  /** sizeof(DataStorePageHeader) on a 64-bit target: an int and an address. */
  const PageHeaderSize: nat := 16

  /** All stored bytes, page after page. */
  function Flatten(pages: seq<seq<bv8>>): seq<bv8>
  {
    if pages == [] then [] else Flatten(pages[..|pages| - 1]) + pages[|pages| - 1]
  }

  /** Every page, header included, fits its 4096 bytes. */
  predicate PagesFit(pages: seq<seq<bv8>>)
  {
    forall k :: 0 <= k < |pages| ==> PageHeaderSize + |pages[k]| <= DataStorePageSize
  }

  /**
   * Stores `data` at the end of the tail page, or in a new page when there
   * is no tail yet or the bytes do not fit.
   */
  function StorePages(pages: seq<seq<bv8>>, data: seq<bv8>): (r: seq<seq<bv8>>)
    requires |data| < DataStorePageSize - PageHeaderSize && PagesFit(pages)
    ensures PagesFit(r) && Flatten(r) == Flatten(pages) + data
    ensures |r| == |pages| || |r| == |pages| + 1
  {
    if pages == [] || PageHeaderSize + |pages[|pages| - 1]| + |data| > DataStorePageSize then
      assert (pages + [data])[..|pages|] == pages;
      pages + [data]
    else
      var last := |pages| - 1;
      var r := pages[last := pages[last] + data];
      assert r[..last] == pages[..last];
      r
  }

  /**
   * The pages that hold data recorded before the profiler is connected, head
   * to tail (a linked list in the source); each page holds its bytes after a
   * header.
   */
  class DataStore {
    var pages: seq<seq<bv8>>

    ghost predicate Valid()
      reads this
    {
      PagesFit(pages)
    }

    constructor ()
      ensures Valid() && pages == []
    {
      pages := [];
    }

    /** Appends the bytes to the tail page, opening a new page when there is none or they do not fit. */
    method StoreData(data: seq<bv8>)
      requires Valid() && |data| < DataStorePageSize - PageHeaderSize
      modifies this
      ensures Valid() && pages == StorePages(old(pages), data)
    {
      if pages == [] || PageHeaderSize + |pages[|pages| - 1]| + |data| > DataStorePageSize {
        pages := pages + [data];
      } else {
        pages := pages[|pages| - 1 := pages[|pages| - 1] + data];
      }
    }
  }

  // ---------------------------------------------------------------------------------
  // Callstack set

  const InitialCapacity: nat := 4096

  /** A recorded callstack: its ID, its return addresses and their hash. */
  datatype Callstack = Callstack(id: nat, stack: seq<bv64>, hash: nat)

  /** The stored callstack is the one asked for: same length, same hash, same addresses. */
  predicate Matches(c: Callstack, stack: seq<bv64>, hash: nat)
  {
    c.stack == stack && c.hash == hash
  }

  /** Compares a stored callstack with a captured one, length and hash first. */
  method StacksMatch(c: Callstack, stack: seq<bv64>, hash: nat) returns (b: bool)
    ensures b <==> Matches(c, stack, hash)
  {
    if |c.stack| != |stack| {
      return false;
    }
    if c.hash != hash {
      return false;
    }
    var i := 0;
    while i < |stack|
      invariant 0 <= i <= |stack| && c.stack[..i] == stack[..i]
    {
      if c.stack[i] != stack[i] {
        return false;
      }
      i := i + 1;
    }
    assert c.stack == c.stack[..i] && stack == stack[..i];
    return true;
  }

  // ---------------------------------------------------------------------------------
  // Probing arithmetic. The source masks with capacity - 1; for the
  // power-of-two capacities the set uses that is the remainder modulo the
  // capacity, which is what the model computes.

  /** The slot a hash is looked for first. */
  function Home(hash: nat, capacity: nat): nat
    requires capacity > 0
  {
    hash % capacity
  }

  /** The slot after slot i, wrapping to slot 0 at the end of the table. */
  function NextSlot(i: nat, capacity: nat): (r: nat)
    requires i < capacity
    ensures r < capacity && r == (i + 1) % capacity
  {
    if i + 1 == capacity then
      DivModUnique(i + 1, capacity, 1, 0);
      0
    else
      DivModUnique(i + 1, capacity, 0, i + 1);
      i + 1
  }

  /** The slot d steps after `home`, wrapping at the end of the table. */
  function Probe(home: nat, d: nat, capacity: nat): nat
    requires home < capacity && d < capacity
  {
    if home + d < capacity then home + d else home + d - capacity
  }

  /** How many steps after `home` slot j comes. */
  function Dist(home: nat, j: nat, capacity: nat): nat
    requires home < capacity && j < capacity
  {
    if home <= j then j - home else j + capacity - home
  }

  // ---------------------------------------------------------------------------------
  // The table as a sequence of slots

  /** The number of occupied slots. */
  function Occupied(t: seq<Option<Callstack>>): nat
  {
    if t == [] then 0 else Occupied(t[..|t| - 1]) + (if t[|t| - 1].Some? then 1 else 0)
  }

  /** The callstacks stored in the slots. */
  function Stored(t: seq<Option<Callstack>>): set<Callstack>
  {
    set j | 0 <= j < |t| && t[j].Some? :: t[j].value
  }

  /**
   * Linear probing's invariant: between an entry's home slot and its slot
   * every slot is occupied, so a lookup that meets an empty slot can stop.
   */
  ghost predicate NoGaps(t: seq<Option<Callstack>>)
  {
    |t| > 0 &&
    forall j, d :: 0 <= j < |t| && t[j].Some? && 0 <= d < Dist(Home(t[j].value.hash, |t|), j, |t|) ==>
      t[Probe(Home(t[j].value.hash, |t|), d, |t|)].Some?
  }

  /** A table with fewer entries than slots has an empty slot. */
  lemma {:induction false} HasEmptySlot(t: seq<Option<Callstack>>) returns (z: nat)
    requires Occupied(t) < |t|
    ensures z < |t| && t[z].None?
    decreases |t|
  {
    var last := |t| - 1;
    if t[last].None? {
      z := last;
    } else {
      z := HasEmptySlot(t[..last]);
    }
  }

  /** Filling an empty slot adds one occupied slot and one stored callstack. */
  lemma {:induction false} FillSlot(t: seq<Option<Callstack>>, i: nat, c: Callstack)
    requires i < |t| && t[i].None?
    ensures Occupied(t[i := Some(c)]) == Occupied(t) + 1
    ensures Stored(t[i := Some(c)]) == Stored(t) + {c}
    decreases |t|
  {
    var t' := t[i := Some(c)];
    var last := |t| - 1;
    if i < last {
      assert t'[..last] == t[..last][i := Some(c)];
      FillSlot(t[..last], i, c);
    } else {
      assert t'[..last] == t[..last];
    }
    forall x | x in Stored(t)
      ensures x in Stored(t')
    {
      var j :| 0 <= j < |t| && t[j].Some? && t[j].value == x;
      assert t'[j] == t[j];
    }
    assert t'[i].value == c;
  }

  /** The occupied slots of a prefix one longer. */
  lemma OccupiedExtend(t: seq<Option<Callstack>>, i: nat)
    requires i < |t|
    ensures Occupied(t[..i + 1]) == Occupied(t[..i]) + (if t[i].Some? then 1 else 0)
    ensures Stored(t[..i + 1]) == Stored(t[..i]) + (if t[i].Some? then {t[i].value} else {})
  {
    assert t[..i + 1][..i] == t[..i];
    var s, s' := Stored(t[..i]), Stored(t[..i + 1]);
    if t[i].Some? {
      assert t[..i + 1][i].value == t[i].value;
    }
    assert s' == s + (if t[i].Some? then {t[i].value} else {});
  }

  /** A prefix has no more occupied slots than the whole table. */
  lemma {:induction false} OccupiedPrefix(t: seq<Option<Callstack>>, i: nat)
    requires i <= |t|
    ensures Occupied(t[..i]) <= Occupied(t)
    decreases |t| - i
  {
    if i < |t| {
      OccupiedExtend(t, i);
      OccupiedPrefix(t, i + 1);
    } else {
      assert t[..i] == t;
    }
  }

  /** A table of empty slots stores nothing and satisfies the probing invariant. */
  lemma EmptyTable(t: seq<Option<Callstack>>)
    requires |t| > 0 && forall j :: 0 <= j < |t| ==> t[j].None?
    ensures Occupied(t) == 0 && Stored(t) == {} && NoGaps(t)
  {
    if Occupied(t) != 0 {
      var z := NonEmptyHasEntry(t);
    }
  }

  lemma {:induction false} NonEmptyHasEntry(t: seq<Option<Callstack>>) returns (z: nat)
    requires Occupied(t) > 0
    ensures z < |t| && t[z].Some?
    decreases |t|
  {
    var last := |t| - 1;
    if t[last].Some? {
      z := last;
    } else {
      z := NonEmptyHasEntry(t[..last]);
    }
  }

  /**
   * A lookup that has stepped past `d` occupied, non-matching slots from the
   * hash's home and then met an empty slot proves that no stored callstack matches.
   */
  lemma AbsentAfterGap(t: seq<Option<Callstack>>, stack: seq<bv64>, hash: nat, d: nat)
    requires NoGaps(t) && d < |t|
    requires t[Probe(Home(hash, |t|), d, |t|)].None?
    requires forall e :: 0 <= e < d ==> (t[Probe(Home(hash, |t|), e, |t|)].Some? &&
                                        !Matches(t[Probe(Home(hash, |t|), e, |t|)].value, stack, hash))
    ensures forall c :: c in Stored(t) ==> !Matches(c, stack, hash)
  {
    var cap, home := |t|, Home(hash, |t|);
    forall c | c in Stored(t) && c.hash == hash
      ensures c.stack != stack
    {
      var j :| 0 <= j < cap && t[j].Some? && t[j].value == c;
      var delta := Dist(home, j, cap);
      GapBoundsDist(t, j, d);
      assert Probe(home, delta, cap) == j;
      assert delta < d;
      assert t[Probe(home, delta, cap)].value == c;
    }
  }

  /** An empty slot on an entry's probe path lies beyond the entry. */
  lemma GapBoundsDist(t: seq<Option<Callstack>>, j: nat, d: nat)
    requires NoGaps(t) && j < |t| && t[j].Some? && d < |t|
    requires t[Probe(Home(t[j].value.hash, |t|), d, |t|)].None?
    ensures d >= Dist(Home(t[j].value.hash, |t|), j, |t|)
  {
  }

  /** Filling the first empty slot on a hash's probe path keeps the probing invariant. */
  lemma FillKeepsNoGaps(t: seq<Option<Callstack>>, c: Callstack, d: nat)
    requires NoGaps(t) && d < |t|
    requires t[Probe(Home(c.hash, |t|), d, |t|)].None?
    requires forall e :: 0 <= e < d ==> t[Probe(Home(c.hash, |t|), e, |t|)].Some?
    ensures NoGaps(t[Probe(Home(c.hash, |t|), d, |t|) := Some(c)])
  {
    var cap, home := |t|, Home(c.hash, |t|);
    var i := Probe(home, d, cap);
    var t' := t[i := Some(c)];
    forall j, e | 0 <= j < cap && t'[j].Some? && 0 <= e < Dist(Home(t'[j].value.hash, cap), j, cap)
      ensures t'[Probe(Home(t'[j].value.hash, cap), e, cap)].Some?
    {
      if j != i {
        assert t[j] == t'[j];
        var h := Home(t[j].value.hash, cap);
        assert t[Probe(h, e, cap)].Some?;
      }
    }
  }

  /**
   * Walks the probe path of a hash from its home slot to the first slot that
   * is empty or holds a matching callstack.
   */
  method FindMatch(data: array<Option<Callstack>>, stack: seq<bv64>, hash: nat) returns (r: Option<Callstack>)
    requires NoGaps(data[..]) && Occupied(data[..]) < data.Length
    ensures r.Some? ==> r.value in Stored(data[..]) && Matches(r.value, stack, hash)
    ensures r.None? ==> forall c :: c in Stored(data[..]) ==> !Matches(c, stack, hash)
  {
    ghost var t := data[..];
    var capacity := data.Length;
    var home := hash % capacity;
    var index := home;
    ghost var d := 0;
    ghost var z := HasEmptySlot(t);
    while data[index].Some?
      invariant d <= Dist(home, z, capacity) && index == Probe(home, d, capacity) < capacity
      invariant forall e :: 0 <= e < d ==> (t[Probe(home, e, capacity)].Some? &&
                                          !Matches(t[Probe(home, e, capacity)].value, stack, hash))
      decreases Dist(home, z, capacity) - d
    {
      var same := StacksMatch(data[index].value, stack, hash);
      if same {
        assert t[index].value in Stored(t);
        return data[index];
      }
      index := NextSlot(index, capacity);
      d := d + 1;
    }
    AbsentAfterGap(t, stack, hash, d);
    return None;
  }

  /**
   * Walks the probe path of a hash from its home slot to the first empty
   * slot; every slot before it on the path is occupied.
   */
  method FindEmpty(data: array<Option<Callstack>>, hash: nat) returns (index: nat, ghost d: nat)
    requires Occupied(data[..]) < data.Length
    ensures d < data.Length && index == Probe(Home(hash, data.Length), d, data.Length) && data[index].None?
    ensures forall e :: 0 <= e < d ==> data[Probe(Home(hash, data.Length), e, data.Length)].Some?
  {
    ghost var t := data[..];
    var capacity := data.Length;
    var home := hash % capacity;
    index := home;
    d := 0;
    ghost var z := HasEmptySlot(t);
    while data[index].Some?
      invariant d <= Dist(home, z, capacity) && index == Probe(home, d, capacity) < capacity
      invariant forall e :: 0 <= e < d ==> t[Probe(home, e, capacity)].Some?
      decreases Dist(home, z, capacity) - d
    {
      index := NextSlot(index, capacity);
      d := d + 1;
    }
  }

  /**
   * The set of recorded callstacks: an open-addressing hash table with
   * linear probing whose capacity doubles when more than a quarter is used.
   */
  class CallstackSet {
    var data: array<Option<Callstack>>
    var capacityMask: nat
    var count: nat
    var capacity: nat

    ghost predicate Valid()
      reads this, data
    {
      data.Length == capacity && capacity >= InitialCapacity && IsPow2(capacity) &&
      capacityMask == capacity - 1 && count == Occupied(data[..]) && count <= capacity / 4 + 1 &&
      NoGaps(data[..]) && forall c :: c in Stored(data[..]) ==> c.id < count
    }

    /** The callstacks in the set. */
    ghost function Contents(): set<Callstack>
      reads this, data
    {
      Stored(data[..])
    }

    constructor ()
      ensures Valid() && Contents() == {} && count == 0 && capacity == InitialCapacity
    {
      data := new Option<Callstack>[InitialCapacity](_ => None);
      capacityMask := InitialCapacity - 1;
      count := 0;
      capacity := InitialCapacity;
      new;
      InitialCapacityIsPow2();
      EmptyTable(data[..]);
    }

    /**
     * Looks for a stored callstack with the same addresses and hash: the walk
     * starts at the hash's home slot and stops at a match or an empty slot.
     */
    method Get(stack: seq<bv64>, hash: nat) returns (r: Option<Callstack>)
      requires Valid()
      ensures r.Some? ==> r.value in Contents() && Matches(r.value, stack, hash)
      ensures r.None? ==> forall c :: c in Contents() ==> !Matches(c, stack, hash)
    {
      r := FindMatch(data, stack, hash);
    }

    /** Puts a callstack into the first empty slot on its hash's probe path. */
    method AddEntry(c: Callstack)
      requires data.Length == capacity && count == Occupied(data[..]) && count < capacity && NoGaps(data[..])
      modifies this, data
      ensures data == old(data) && capacity == old(capacity) && capacityMask == old(capacityMask)
      ensures count == old(count) + 1 && count == Occupied(data[..]) && NoGaps(data[..])
      ensures Stored(data[..]) == Stored(old(data[..])) + {c}
    {
      ghost var t := data[..];
      var index, d := FindEmpty(data, c.hash);
      FillKeepsNoGaps(t, c, d);
      FillSlot(t, index, c);
      data[index] := Some(c);
      assert data[..] == t[index := Some(c)];
      count := count + 1;
    }

    /** Doubles the capacity and puts every stored callstack into the new table. */
    method Grow()
      requires Valid()
      modifies this
      ensures Valid() && fresh(data) && Contents() == old(Contents()) && count == old(count)
      ensures capacity == 2 * old(capacity)
    {
      var oldCapacity := capacity;
      var oldData := data;
      ghost var oldCount := count;
      ghost var old' := data[..];
      capacity := capacity * 2;
      capacityMask := capacity - 1;
      data := new Option<Callstack>[capacity](_ => None);
      count := 0;
      EmptyTable(data[..]);
      assert old'[..0] == [];
      for i := 0 to oldCapacity
        invariant data != oldData && fresh(data) && oldData[..] == old'
        invariant data.Length == capacity == 2 * oldCapacity && capacityMask == capacity - 1
        invariant count == Occupied(data[..]) == Occupied(old'[..i]) && NoGaps(data[..])
        invariant Stored(data[..]) == Stored(old'[..i])
      {
        OccupiedExtend(old', i);
        OccupiedPrefix(old', i + 1);
        if oldData[i].Some? {
          AddEntry(oldData[i].value);
        }
      }
      assert old'[..oldCapacity] == old';
      Pow2Double(oldCapacity);
    }

    /**
     * Records a new callstack, growing the table first when more than a
     * quarter of it is used. Its ID is the number of callstacks before it.
     */
    method Add(stack: seq<bv64>, hash: nat) returns (c: Callstack)
      requires Valid()
      modifies this, data
      ensures Valid() && c == Callstack(old(count), stack, hash)
      ensures Contents() == old(Contents()) + {c} && count == old(count) + 1
      ensures forall e :: e in old(Contents()) ==> e.id < c.id
    {
      if count > capacity / 4 {
        Grow();
      }
      c := Callstack(count, stack, hash);
      AddEntry(c);
    }

    /** Forgets every callstack and returns to the initial capacity. */
    method Clear()
      modifies this
      ensures Valid() && Contents() == {} && count == 0 && capacity == InitialCapacity && capacityMask == InitialCapacity - 1
    {
      data := new Option<Callstack>[InitialCapacity](_ => None);
      capacityMask := InitialCapacity - 1;
      count := 0;
      capacity := InitialCapacity;
      InitialCapacityIsPow2();
      EmptyTable(data[..]);
    }
  }

  lemma InitialCapacityIsPow2()
    ensures IsPow2(InitialCapacity)
  {
    assert IsPow2(1) && IsPow2(2) && IsPow2(4) && IsPow2(8) && IsPow2(16) && IsPow2(32);
    assert IsPow2(64) && IsPow2(128) && IsPow2(256) && IsPow2(512) && IsPow2(1024) && IsPow2(2048);
  }

  lemma Pow2Double(n: nat)
    requires IsPow2(n)
    ensures IsPow2(2 * n)
  {
    assert (2 * n) / 2 == n;
  }

  /**
   * The profiler's use of the set: the callstack of an allocation is looked
   * up and, when it is new, added and sent. Each distinct callstack gets one
   * ID, and a new one gets the next ID.
   */
  method CallstackId(callstacks: CallstackSet, stack: seq<bv64>, hash: nat) returns (id: nat, isNew: bool)
    requires callstacks.Valid()
    modifies callstacks, callstacks.data
    ensures callstacks.Valid()
    ensures isNew <==> forall c :: c in old(callstacks.Contents()) ==> !Matches(c, stack, hash)
    ensures isNew ==> id == old(callstacks.count) && callstacks.Contents() == old(callstacks.Contents()) + {Callstack(id, stack, hash)}
    ensures !isNew ==> Callstack(id, stack, hash) in callstacks.Contents() && callstacks.Contents() == old(callstacks.Contents())
  {
    var found := callstacks.Get(stack, hash);
    if found.None? {
      var c := callstacks.Add(stack, hash);
      id, isNew := c.id, true;
    } else {
      id, isNew := found.value.id, false;
      assert found.value == Callstack(id, stack, hash);
    }
  }
}
