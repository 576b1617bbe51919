/** The kernel heap: a chain of blocks that fills a fixed region, searched first fit, split on allocation and merged
    again on release. */
module Heap {
  import opened Words

  const HEAP_START := 0x30_0000
  const HEAP_SIZE := 0x80_0000
  const HEADER := 12
  const MAX_REQUEST := 0xFFFF_FFFC   // above this the rounding of a request wraps to zero

  /** A block as the chain shows it, from low addresses to high. */
  datatype Block = Block(size: int, free: bool)

  // ---- the chain as a value ----

  function Total(bs: seq<Block>): int {
    if bs == [] then 0 else HEADER + bs[0].size + Total(bs[1..])
  }

  /** A whole number of words. */
  predicate SizeOk(n: int) { n >= 0 && n % 4 == 0 }

  predicate SizesOk(bs: seq<Block>) {
    forall k :: 0 <= k < |bs| ==> SizeOk(bs[k].size)
  }

  lemma SizeSum(a: int, b: int)
    ensures SizeOk(a) && SizeOk(b) ==> SizeOk(a + HEADER + b)
    ensures SizeOk(a) && SizeOk(b) && a >= b + HEADER + 4 ==> SizeOk(a - b - HEADER)
  {
    Fours(a);
    Fours(b);
    Fours(a + HEADER + b);
    Fours(a - b - HEADER);
  }

  lemma Fours(n: int)
    ensures n == 4 * (n / 4) + n % 4 && 0 <= n % 4 < 4
  {
  }

  /** No two free blocks lie side by side. */
  predicate Merged(bs: seq<Block>) {
    forall k :: 0 <= k < |bs| - 1 ==> !(bs[k].free && bs[k + 1].free)
  }

  /** The blocks and their headers fill the region exactly. */
  predicate HeapOk(bs: seq<Block>) { Total(bs) == HEAP_SIZE && SizesOk(bs) && Merged(bs) }

  /** The request rounded up to whole words, in 32 bits. */
  function Round(size: U32): U32 { (size + 3) % 0x1_0000_0000 / 4 * 4 }

  lemma RoundOk(size: U32)
    ensures SizeOk(Round(size))
  {
  }

  predicate Fits(b: Block, n: int) { b.free && b.size >= n }

  /** The first block that is free and large enough. */
  function FirstFit(bs: seq<Block>, n: int): (k: nat)
    ensures k <= |bs| && (k < |bs| ==> Fits(bs[k], n)) && forall j :: 0 <= j < k ==> !Fits(bs[j], n)
  {
    if bs == [] || Fits(bs[0], n) then 0 else FirstFit(bs[1..], n) + 1
  }

  /** Block `k` is handed out: cut down to `n` if what is left over is worth a block. */
  function Taken(bs: seq<Block>, k: nat, n: int): seq<Block>
    requires k < |bs|
  {
    if bs[k].size >= n + HEADER + 4 then
      bs[..k] + [Block(n, false), Block(bs[k].size - n - HEADER, true)] + bs[k + 1..]
    else bs[k := Block(bs[k].size, false)]
  }

  function Coalesced(bs: seq<Block>): seq<Block>
    decreases |bs|
  {
    if |bs| < 2 then bs
    else if bs[0].free && bs[1].free then Coalesced([Block(bs[0].size + HEADER + bs[1].size, true)] + bs[2..])
    else [bs[0]] + Coalesced(bs[1..])
  }

  function Released(bs: seq<Block>, k: nat): seq<Block>
    requires k < |bs|
  {
    Coalesced(bs[k := Block(bs[k].size, true)])
  }

  // ---- invariants ----

  lemma {:induction false} TotalAppend(a: seq<Block>, b: seq<Block>)
    ensures Total(a + b) == Total(a) + Total(b)
  {
    if a == [] {
      assert a + b == b;
    } else {
      assert (a + b)[1..] == a[1..] + b;
      TotalAppend(a[1..], b);
    }
  }

  lemma TotalOne(b: Block)
    ensures Total([b]) == HEADER + b.size
  {
  }

  lemma TotalTwo(a: Block, b: Block)
    ensures Total([a, b]) == HEADER + a.size + HEADER + b.size
  {
    assert [a, b] == [a] + [b];
    TotalAppend([a], [b]);
  }

  /** Replacing block `k` by blocks of the same extent leaves the total as it is. */
  lemma TotalAround(bs: seq<Block>, k: nat, mid: seq<Block>)
    requires k < |bs| && Total(mid) == HEADER + bs[k].size
    ensures Total(bs[..k] + mid + bs[k + 1..]) == Total(bs)
  {
    hide Total;
    assert bs == bs[..k] + [bs[k]] + bs[k + 1..];
    TotalAppend(bs[..k] + [bs[k]], bs[k + 1..]);
    TotalAppend(bs[..k] + mid, bs[k + 1..]);
    TotalAppend(bs[..k], [bs[k]]);
    TotalAppend(bs[..k], mid);
    TotalOne(bs[k]);
  }

  lemma TotalUpdate(bs: seq<Block>, k: nat, b: Block)
    requires k < |bs| && b.size == bs[k].size
    ensures Total(bs[k := b]) == Total(bs)
  {
    TotalOne(b);
    TotalAround(bs, k, [b]);
    assert bs[k := b] == bs[..k] + [b] + bs[k + 1..];
  }

  /** Handing out a block keeps the heap in order. */
  lemma TakenKeeps(bs: seq<Block>, k: nat, n: int)
    requires HeapOk(bs) && k < |bs| && Fits(bs[k], n) && SizeOk(n)
    ensures HeapOk(Taken(bs, k, n))
  {
    hide Total, SizeOk;
    var t := Taken(bs, k, n);
    SizeSum(bs[k].size, n);
    if bs[k].size >= n + HEADER + 4 {
      TotalTwo(Block(n, false), Block(bs[k].size - n - HEADER, true));
      TotalAround(bs, k, [Block(n, false), Block(bs[k].size - n - HEADER, true)]);
      assert k + 1 < |bs| ==> !bs[k + 1].free;
      forall j | 0 <= j < |t| - 1
        ensures !(t[j].free && t[j + 1].free)
      {
        if j > k + 1 {
          assert t[j] == bs[j - 1] && t[j + 1] == bs[j];
        } else if j < k {
          assert t[j] == bs[j];
        }
      }
    } else {
      TotalUpdate(bs, k, Block(bs[k].size, false));
    }
  }

  lemma {:induction false} CoalescedKeeps(bs: seq<Block>)
    requires SizesOk(bs)
    ensures SizesOk(Coalesced(bs)) && Merged(Coalesced(bs)) && Total(Coalesced(bs)) == Total(bs)
    ensures bs != [] ==> Coalesced(bs) != [] && Coalesced(bs)[0].free == bs[0].free
    decreases |bs|
  {
    if |bs| >= 2 {
      if bs[0].free && bs[1].free {
        var merged := [Block(bs[0].size + HEADER + bs[1].size, true)] + bs[2..];
        assert merged[1..] == bs[2..] && bs[1..][1..] == bs[2..];
        SizeSum(bs[0].size, bs[1].size);
        CoalescedKeeps(merged);
      } else {
        CoalescedKeeps(bs[1..]);
        var rest := Coalesced(bs[1..]);
        assert ([bs[0]] + rest)[1..] == rest;
      }
    }
  }

  // ---- no empty blocks ----

  predicate AllPositive(bs: seq<Block>) { forall k :: 0 <= k < |bs| ==> bs[k].size > 0 }

  /** Block `k` handed out for a request leaves no empty block if and only if rounding the request up did not wrap, or
      the block was too small to be split. */
  lemma PositiveIff(bs: seq<Block>, k: nat, size: U32)
    requires AllPositive(bs) && k < |bs| && size > 0
    ensures var t := Taken(bs, k, Round(size));
      k < |t| && (AllPositive(t) <==> size <= MAX_REQUEST || bs[k].size < HEADER + 4)
  {
    var t := Taken(bs, k, Round(size));
    assert bs[k].size < Round(size) + HEADER + 4 ==> forall j :: 0 <= j < |t| ==> t[j].size == bs[j].size;
    assert bs[k].size >= Round(size) + HEADER + 4 ==> t[k].size == Round(size);
    forall j | 0 <= j < |t| && j != k
      ensures t[j].size > 0
    {
      if bs[k].size >= Round(size) + HEADER + 4 && j > k + 1 {
        assert t[j] == bs[j - 1];
      }
    }
  }

  lemma {:induction false} CoalescedPositive(bs: seq<Block>)
    requires AllPositive(bs)
    ensures AllPositive(Coalesced(bs))
    decreases |bs|
  {
    if |bs| >= 2 {
      if bs[0].free && bs[1].free {
        CoalescedPositive([Block(bs[0].size + HEADER + bs[1].size, true)] + bs[2..]);
      } else {
        CoalescedPositive(bs[1..]);
      }
    }
  }

  lemma ReleasedPositive(bs: seq<Block>, k: nat)
    requires AllPositive(bs) && k < |bs|
    ensures AllPositive(Released(bs, k))
  {
    CoalescedPositive(bs[k := Block(bs[k].size, true)]);
  }

  lemma ReleasedKeeps(bs: seq<Block>, k: nat)
    requires HeapOk(bs) && k < |bs|
    ensures HeapOk(Released(bs, k))
  {
    TotalUpdate(bs, k, Block(bs[k].size, true));
    CoalescedKeeps(bs[k := Block(bs[k].size, true)]);
  }

  // ---- undoing ----

  lemma {:induction false} CoalescedSame(bs: seq<Block>)
    requires Merged(bs)
    ensures Coalesced(bs) == bs
    decreases |bs|
  {
    if |bs| >= 2 {
      assert Merged(bs[1..]) by {
        forall k | 0 <= k < |bs[1..]| - 1
          ensures !(bs[1..][k].free && bs[1..][k + 1].free)
        {
          assert bs[1..][k] == bs[k + 1] && bs[1..][k + 1] == bs[k + 2];
        }
      }
      CoalescedSame(bs[1..]);
    }
  }

  /** The two halves of a free block that was split merge into it again. */
  lemma {:induction false} CoalescedSplit(bs: seq<Block>, k: nat, a: int, b: int)
    requires Merged(bs) && k < |bs| && bs[k] == Block(a + HEADER + b, true)
    ensures Coalesced(bs[..k] + [Block(a, true), Block(b, true)] + bs[k + 1..]) == bs
    decreases |bs|
  {
    var split := bs[..k] + [Block(a, true), Block(b, true)] + bs[k + 1..];
    if k == 0 {
      assert split[2..] == bs[1..] && [bs[0]] + bs[1..] == bs;
      CoalescedSame(bs);
    } else {
      assert split[0] == bs[0] && split[1..] == bs[1..][..k - 1] + [Block(a, true), Block(b, true)] + bs[1..][k..];
      assert Merged(bs[1..]) by {
        forall j | 0 <= j < |bs[1..]| - 1
          ensures !(bs[1..][j].free && bs[1..][j + 1].free)
        {
          assert bs[1..][j] == bs[j + 1] && bs[1..][j + 1] == bs[j + 2];
        }
      }
      CoalescedSplit(bs[1..], k - 1, a, b);
      assert [bs[0]] + bs[1..] == bs;
      assert !(split[0].free && split[1].free);
    }
  }

  /** Releasing what was just handed out restores the heap, block for block. */
  lemma TakeRelease(bs: seq<Block>, k: nat, n: int)
    requires HeapOk(bs) && k < |bs| && Fits(bs[k], n)
    ensures k < |Taken(bs, k, n)| && Released(Taken(bs, k, n), k) == bs
  {
    var t := Taken(bs, k, n);
    if bs[k].size >= n + HEADER + 4 {
      var rest := bs[k].size - n - HEADER;
      assert t[k := Block(t[k].size, true)] == bs[..k] + [Block(n, true), Block(rest, true)] + bs[k + 1..];
      CoalescedSplit(bs, k, n, rest);
    } else {
      assert t[k := Block(t[k].size, true)] == bs;
      CoalescedSame(bs);
    }
  }

  // ---- addresses ----

  /** Where block `k` starts, counting from `base`. */
  function Address(bs: seq<Block>, k: nat, base: int): int
    requires k <= |bs|
  {
    base + Total(bs[..k])
  }

  lemma AddressNext(bs: seq<Block>, k: nat, base: int)
    requires k < |bs|
    ensures Address(bs, k + 1, base) == Address(bs, k, base) + HEADER + bs[k].size
  {
    assert bs[..k + 1] == bs[..k] + [bs[k]];
    TotalAppend(bs[..k], [bs[k]]);
  }

  /** Blocks do not overlap: each ends, header and all, before any later one starts. */
  lemma {:induction false} Apart(bs: seq<Block>, j: nat, k: nat, base: int)
    requires SizesOk(bs) && j < k <= |bs|
    ensures Address(bs, j, base) + HEADER + bs[j].size <= Address(bs, k, base)
    decreases k
  {
    AddressNext(bs, k - 1, base);
    if j < k - 1 {
      Apart(bs, j, k - 1, base);
    }
  }

  /** The last block ends where the region ends. */
  lemma Filled(bs: seq<Block>)
    requires HeapOk(bs)
    ensures Address(bs, |bs|, HEAP_START) == HEAP_START + HEAP_SIZE
    ensures forall k :: 0 <= k <= |bs| ==> HEAP_START <= Address(bs, k, HEAP_START) <= HEAP_START + HEAP_SIZE
  {
    assert bs[..|bs|] == bs;
    forall k | 0 <= k <= |bs|
      ensures HEAP_START <= Address(bs, k, HEAP_START) <= HEAP_START + HEAP_SIZE
    {
      if k > 0 {
        Apart(bs, 0, k, HEAP_START);
      }
      if k < |bs| {
        Apart(bs, k, |bs|, HEAP_START);
      }
    }
  }

  // ---- what is handed out ----

  /** The blocks in use: where they start and how large they are. */
  ghost function Live(bs: seq<Block>, base: int): set<(int, int)> {
    if bs == [] then {} else
    (if bs[0].free then {} else {(base, bs[0].size)}) + Live(bs[1..], base + HEADER + bs[0].size)
  }

  lemma {:induction false} LiveAppend(a: seq<Block>, b: seq<Block>, base: int)
    ensures Live(a + b, base) == Live(a, base) + Live(b, base + Total(a))
    decreases |a|
  {
    if a == [] {
      assert a + b == b;
    } else {
      assert (a + b)[1..] == a[1..] + b;
      LiveAppend(a[1..], b, base + HEADER + a[0].size);
    }
  }

  lemma LiveAround(bs: seq<Block>, k: nat, mid: seq<Block>, base: int)
    requires k < |bs| && Total(mid) == HEADER + bs[k].size
    ensures Live(bs[..k] + mid + bs[k + 1..], base) ==
      Live(bs[..k], base) + Live(mid, Address(bs, k, base)) + Live(bs[k + 1..], Address(bs, k + 1, base))
  {
    hide Live, Total;
    AddressNext(bs, k, base);
    TotalAppend(bs[..k], mid);
    LiveAppend(bs[..k] + mid, bs[k + 1..], base);
    LiveAppend(bs[..k], mid, base);
  }

  lemma {:induction false} LiveAfter(bs: seq<Block>, base: int)
    requires SizesOk(bs)
    ensures forall a, n :: (a, n) in Live(bs, base) ==> base <= a && a + HEADER + n <= base + Total(bs)
    decreases |bs|
  {
    if bs != [] {
      LiveAfter(bs[1..], base + HEADER + bs[0].size);
      assert Total(bs[1..]) >= 0 by { TotalNonNegative(bs[1..]); }
    }
  }

  lemma {:induction false} TotalNonNegative(bs: seq<Block>)
    requires SizesOk(bs)
    ensures Total(bs) >= 0
  {
    if bs != [] {
      TotalNonNegative(bs[1..]);
    }
  }

  /** kmalloc adds one block to those in use and touches no other. */
  lemma TakenLive(bs: seq<Block>, k: nat, n: int, base: int)
    requires k < |bs| && Fits(bs[k], n)
    ensures var t := Taken(bs, k, n);
      k < |t| && Live(t, base) == Live(bs, base) + {(Address(bs, k, base), t[k].size)}
  {
    hide Live, Total, Address;
    var at := Address(bs, k, base);
    var before, after := Live(bs[..k], base), Live(bs[k + 1..], Address(bs, k + 1, base));
    var t := Taken(bs, k, n);
    if bs[k].size >= n + HEADER + 4 {
      var a, b := Block(n, false), Block(bs[k].size - n - HEADER, true);
      TotalTwo(a, b);
      LiveTwo(a, b, at);
      LiveAround(bs, k, [a, b], base);
      assert Live(t, base) == before + {(at, n)} + after;
    } else {
      var a := Block(bs[k].size, false);
      assert bs[k := a] == bs[..k] + [a] + bs[k + 1..];
      TotalOne(a);
      LiveOne(a, at);
      LiveAround(bs, k, [a], base);
      assert Live(t, base) == before + {(at, bs[k].size)} + after;
    }
    assert bs == bs[..k] + [bs[k]] + bs[k + 1..];
    TotalOne(bs[k]);
    LiveOne(bs[k], at);
    LiveAround(bs, k, [bs[k]], base);
    assert Live(bs, base) == before + {} + after;
  }

  lemma LiveOne(a: Block, base: int)
    ensures Live([a], base) == if a.free then {} else {(base, a.size)}
  {
  }

  lemma LiveTwo(a: Block, b: Block, base: int)
    requires !a.free && b.free
    ensures Live([a, b], base) == {(base, a.size)}
  {
    assert [a, b] == [a] + [b];
    LiveAppend([a], [b], base);
    LiveOne(a, base);
    LiveOne(b, base + Total([a]));
  }

  lemma {:induction false} CoalescedLive(bs: seq<Block>, base: int)
    ensures Live(Coalesced(bs), base) == Live(bs, base)
    decreases |bs|
  {
    if |bs| >= 2 {
      if bs[0].free && bs[1].free {
        var merged := [Block(bs[0].size + HEADER + bs[1].size, true)] + bs[2..];
        assert merged[1..] == bs[2..] && bs[1..][1..] == bs[2..];
        CoalescedLive(merged, base);
      } else {
        CoalescedLive(bs[1..], base + HEADER + bs[0].size);
        assert ([bs[0]] + Coalesced(bs[1..]))[1..] == Coalesced(bs[1..]);
      }
    }
  }

  /** kfree takes one block away from those in use and touches no other. */
  lemma ReleasedLive(bs: seq<Block>, k: nat, base: int)
    requires k < |bs| && !bs[k].free && SizesOk(bs)
    ensures Live(Released(bs, k), base) == Live(bs, base) - {(Address(bs, k, base), bs[k].size)}
  {
    hide Live, Total, Address;
    var b, at := Block(bs[k].size, true), Address(bs, k, base);
    var before, after := Live(bs[..k], base), Live(bs[k + 1..], Address(bs, k + 1, base));
    CoalescedLive(bs[k := b], base);
    assert bs[k := b] == bs[..k] + [b] + bs[k + 1..] && bs == bs[..k] + [bs[k]] + bs[k + 1..];
    TotalOne(b);
    TotalOne(bs[k]);
    LiveAround(bs, k, [b], base);
    LiveAround(bs, k, [bs[k]], base);
    LiveOne(b, at);
    LiveOne(bs[k], at);
    NotElsewhere(bs, k, base);
    assert Live(bs, base) == before + {(at, bs[k].size)} + after;
  }

  lemma NotElsewhere(bs: seq<Block>, k: nat, base: int)
    requires k < |bs| && SizesOk(bs)
    ensures var b := (Address(bs, k, base), bs[k].size);
      b !in Live(bs[..k], base) && b !in Live(bs[k + 1..], Address(bs, k + 1, base))
  {
    hide Live, Total;
    AddressNext(bs, k, base);
    LiveAfter(bs[..k], base);
    LiveAfter(bs[k + 1..], Address(bs, k + 1, base));
  }

  // ---- in place ----

  /** A block header in memory. */
  datatype Header = Header(size: U32, free: bool, next: int)

  function Addr(bs: seq<Block>, k: nat): int
    requires k <= |bs|
  {
    Address(bs, k, HEAP_START)
  }

  function NextAddr(bs: seq<Block>, k: nat): int
    requires k < |bs|
  {
    if k + 1 < |bs| then Addr(bs, k + 1) else 0
  }

  /** Block `k`'s header stands where it should, and leads to the next. */
  ghost predicate StoredAt(mem: map<int, Header>, bs: seq<Block>, k: nat)
    requires k < |bs|
  {
    && Addr(bs, k) in mem
    && mem[Addr(bs, k)].size == bs[k].size && mem[Addr(bs, k)].free == bs[k].free && mem[Addr(bs, k)].next == NextAddr(bs, k)
  }

  ghost predicate Stored(mem: map<int, Header>, bs: seq<Block>) {
    forall k :: 0 <= k < |bs| ==> StoredAt(mem, bs, k)
  }

  function FreshBlocks(): seq<Block> { [Block(HEAP_SIZE - HEADER, true)] }

  /** A change of one header, at block `k`, that keeps its extent. */
  lemma StoredUpdate(mem: map<int, Header>, bs: seq<Block>, k: nat, free: bool)
    requires HeapOk(bs) && k < |bs| && Stored(mem, bs)
    ensures Addr(bs, k) in mem
    ensures Stored(mem[Addr(bs, k) := mem[Addr(bs, k)].(free := free)], bs[k := Block(bs[k].size, free)])
  {
    hide Total, HeapOk;
    assert StoredAt(mem, bs, k);
    var bs', mem' := bs[k := Block(bs[k].size, free)], mem[Addr(bs, k) := mem[Addr(bs, k)].(free := free)];
    assert SizesOk(bs) by { OkSizes(bs); }
    forall j | 0 <= j < |bs'|
      ensures StoredAt(mem', bs', j)
    {
      assert StoredAt(mem, bs, j);
      SameAddress(bs, k, bs'[k], j);
      SameAddress(bs, k, bs'[k], j + 1);
      AddressesDiffer(bs, j, k);
    }
  }

  lemma OkSizes(bs: seq<Block>)
    requires HeapOk(bs)
    ensures SizesOk(bs) && Total(bs) == HEAP_SIZE
  {
  }

  lemma AddressesDiffer(bs: seq<Block>, j: nat, k: nat)
    requires SizesOk(bs) && j < |bs| && k < |bs|
    ensures Addr(bs, j) == Addr(bs, k) <==> j == k
    ensures j < k ==> Addr(bs, j) < Addr(bs, k)
  {
    hide Total;
    if j < k {
      Apart(bs, j, k, HEAP_START);
    } else if k < j {
      Apart(bs, k, j, HEAP_START);
    }
  }

  lemma SameAddress(bs: seq<Block>, k: nat, b: Block, j: nat)
    requires k < |bs| && j <= |bs| && b.size == bs[k].size
    ensures Addr(bs[k := b], j) == Addr(bs, j)
  {
    if k < j {
      assert bs[k := b][..j] == bs[..j][k := b];
      TotalUpdate(bs[..j], k, b);
    } else {
      assert bs[k := b][..j] == bs[..j];
    }
  }

  /** Two neighbours `a` and `b` in the place of one, `ab`, of the same extent: addresses on either side stay. */
  lemma SplitAddress(bs: seq<Block>, k: nat, a: Block, b: Block, j: nat)
    requires k < |bs| && a.size + HEADER + b.size == bs[k].size && j <= |bs| + 1
    ensures var t := bs[..k] + [a, b] + bs[k + 1..];
      Addr(t, j) == if j <= k then Addr(bs, j) else if j == k + 1 then Addr(bs, k) + HEADER + a.size else Addr(bs, j - 1)
  {
    hide Total;
    var t := bs[..k] + [a, b] + bs[k + 1..];
    if j <= k {
      assert t[..j] == bs[..j];
    } else if j == k + 1 {
      AddressNext(t, k, HEAP_START);
      assert t[..k] == bs[..k];
    } else {
      assert t[..j] == bs[..j - 1][..k] + [a, b] + bs[..j - 1][k + 1..];
      TotalTwo(a, b);
      TotalAround(bs[..j - 1], k, [a, b]);
    }
  }

  /** The memory after a split of block `k`: its own header and the one in its middle change. */
  lemma StoredSplit(mem: map<int, Header>, bs: seq<Block>, k: nat, a: Block, b: Block, mem': map<int, Header>)
    requires SizesOk(bs) && k < |bs| && Stored(mem, bs)
    requires SizeOk(a.size) && SizeOk(b.size) && a.size + HEADER + b.size == bs[k].size
    requires 0 <= a.size < 0x1_0000_0000 && 0 <= b.size < 0x1_0000_0000
    requires var rest := Addr(bs, k) + HEADER + a.size;
      mem' == mem[rest := Header(b.size, b.free, NextAddr(bs, k))][Addr(bs, k) := Header(a.size, a.free, rest)]
    ensures Stored(mem', bs[..k] + [a, b] + bs[k + 1..])
  {
    hide Total, Address, Stored;
    var t := bs[..k] + [a, b] + bs[k + 1..];
    forall j | 0 <= j < |t|
      ensures StoredAt(mem', t, j)
    {
      SplitHeader(mem, bs, k, a, b, mem', t, j);
    }
    assert Stored(mem', t) by { AllStored(mem', t); }
  }

  lemma AllStored(mem: map<int, Header>, bs: seq<Block>)
    requires forall k :: 0 <= k < |bs| ==> StoredAt(mem, bs, k)
    ensures Stored(mem, bs)
  {
  }

  lemma SplitHeader(mem: map<int, Header>, bs: seq<Block>, k: nat, a: Block, b: Block, mem': map<int, Header>, t: seq<Block>, j: nat)
    requires SizesOk(bs) && k < |bs| && Stored(mem, bs)
    requires SizeOk(a.size) && SizeOk(b.size) && a.size + HEADER + b.size == bs[k].size
    requires 0 <= a.size < 0x1_0000_0000 && 0 <= b.size < 0x1_0000_0000
    requires t == bs[..k] + [a, b] + bs[k + 1..] && j < |t|
    requires var rest := Addr(bs, k) + HEADER + a.size;
      mem' == mem[rest := Header(b.size, b.free, NextAddr(bs, k))][Addr(bs, k) := Header(a.size, a.free, rest)]
    ensures StoredAt(mem', t, j)
  {
    hide Total, Address;
    SplitAddress(bs, k, a, b, j);
    SplitAddress(bs, k, a, b, j + 1);
    SplitAddress(bs, k, a, b, k);
    SplitAddress(bs, k, a, b, k + 1);
    assert SizesOk(t);
    AddressesDiffer(t, j, k);
    AddressesDiffer(t, j, k + 1);
    var i := if j <= k then j else j - 1;
    assert StoredAt(mem, bs, i);
  }

  /** The memory after blocks `k` and `k + 1` of the chain became block `k` of `bs`. */
  lemma StoredMerge(mem: map<int, Header>, bs: seq<Block>, k: nat, a: Block, b: Block, mem': map<int, Header>)
    requires SizesOk(bs) && k < |bs| && Stored(mem, bs[..k] + [a, b] + bs[k + 1..])
    requires SizeOk(a.size) && SizeOk(b.size) && a.size + HEADER + b.size == bs[k].size
    requires bs[k].size < 0x1_0000_0000 && mem' == mem[Addr(bs, k) := Header(bs[k].size, bs[k].free, NextAddr(bs, k))]
    ensures Stored(mem', bs)
  {
    hide Total, Address, Stored;
    forall j | 0 <= j < |bs|
      ensures StoredAt(mem', bs, j)
    {
      MergeHeader(mem, bs, k, a, b, mem', j);
    }
    AllStored(mem', bs);
  }

  lemma MergeHeader(mem: map<int, Header>, bs: seq<Block>, k: nat, a: Block, b: Block, mem': map<int, Header>, j: nat)
    requires SizesOk(bs) && k < |bs| && Stored(mem, bs[..k] + [a, b] + bs[k + 1..]) && j < |bs|
    requires SizeOk(a.size) && SizeOk(b.size) && a.size + HEADER + b.size == bs[k].size
    requires bs[k].size < 0x1_0000_0000 && mem' == mem[Addr(bs, k) := Header(bs[k].size, bs[k].free, NextAddr(bs, k))]
    ensures StoredAt(mem', bs, j)
  {
    hide Total, Address;
    var t := bs[..k] + [a, b] + bs[k + 1..];
    var i := if j <= k then j else j + 1;
    SplitAddress(bs, k, a, b, i);
    SplitAddress(bs, k, a, b, i + 1);
    AddressesDiffer(bs, j, k);
    assert StoredAt(mem, t, i);
  }

  lemma FirstFitIs(bs: seq<Block>, n: int, k: nat)
    requires k <= |bs| && (k < |bs| ==> Fits(bs[k], n)) && forall j :: 0 <= j < k ==> !Fits(bs[j], n)
    ensures FirstFit(bs, n) == k
  {
    var _ := FirstFit(bs, n);
  }

  lemma SizeBound(bs: seq<Block>, k: nat)
    requires SizesOk(bs) && k < |bs|
    ensures bs[k].size + HEADER <= Total(bs) && Addr(bs, k) >= HEAP_START
  {
    assert bs == bs[..k] + [bs[k]] + bs[k + 1..];
    TotalAppend(bs[..k] + [bs[k]], bs[k + 1..]);
    TotalAppend(bs[..k], [bs[k]]);
    TotalNonNegative(bs[..k]);
    TotalNonNegative(bs[k + 1..]);
  }

  lemma NonEmpty(bs: seq<Block>)
    requires Total(bs) == HEAP_SIZE
    ensures |bs| > 0 && Addr(bs, 0) == HEAP_START
  {
    assert bs[..0] == [];
  }

  lemma AddressesPositive(bs: seq<Block>)
    requires SizesOk(bs)
    ensures forall k :: 0 <= k < |bs| ==> Addr(bs, k) > 0
  {
    forall k | 0 <= k < |bs|
      ensures Addr(bs, k) > 0
    {
      SizeBound(bs, k);
    }
  }

  lemma HeaderAt(mem: map<int, Header>, bs: seq<Block>, k: nat)
    requires k < |bs| && Stored(mem, bs) && SizesOk(bs)
    ensures StoredAt(mem, bs, k) && Addr(bs, k) >= HEAP_START && (NextAddr(bs, k) == 0 <==> k + 1 == |bs|)
  {
    hide Total;
    SizeBound(bs, k);
    if k + 1 < |bs| {
      SizeBound(bs, k + 1);
    }
  }

  lemma BlockBelow(bs: seq<Block>, k: nat)
    requires SizesOk(bs) && Total(bs) == HEAP_SIZE && k < |bs|
    ensures bs[k].size + HEADER <= HEAP_SIZE
  {
    SizeBound(bs, k);
  }

  /** Coalescing `from` has come to block `k`: the list is now `bs`. */
  ghost predicate Underway(from: seq<Block>, bs: seq<Block>, k: nat) {
    k < |bs| && Coalesced(from) == bs[..k] + Coalesced(bs[k..])
  }

  lemma CoalesceStarts(bs: seq<Block>)
    requires bs != []
    ensures Underway(bs, bs, 0)
  {
    assert bs[..0] == [] && bs[0..] == bs;
  }

  lemma CoalesceMerges(from: seq<Block>, bs: seq<Block>, k: nat, merged: seq<Block>)
    requires Underway(from, bs, k) && k + 1 < |bs| && bs[k].free && bs[k + 1].free
    requires merged == bs[..k] + [Block(bs[k].size + HEADER + bs[k + 1].size, true)] + bs[k + 2..]
    ensures Underway(from, merged, k)
  {
    assert bs[k..][2..] == bs[k + 2..];
    assert merged[..k] == bs[..k] && merged[k..] == [Block(bs[k].size + HEADER + bs[k + 1].size, true)] + bs[k + 2..];
  }

  lemma CoalesceSkips(from: seq<Block>, bs: seq<Block>, k: nat)
    requires Underway(from, bs, k) && k + 1 < |bs| && !(bs[k].free && bs[k + 1].free)
    ensures Underway(from, bs, k + 1)
  {
    assert bs[k..][1..] == bs[k + 1..] && bs[..k + 1] == bs[..k] + [bs[k]];
    assert Coalesced(bs[k..]) == [bs[k]] + Coalesced(bs[k + 1..]);
  }

  lemma CoalesceEnds(from: seq<Block>, bs: seq<Block>, k: nat)
    requires Underway(from, bs, k) && k + 1 == |bs|
    ensures Coalesced(from) == bs
  {
  }

  lemma MergeFacts(bs: seq<Block>, k: nat, merged: seq<Block>)
    requires SizesOk(bs) && Total(bs) == HEAP_SIZE && k + 1 < |bs|
    requires merged == bs[..k] + [Block(bs[k].size + HEADER + bs[k + 1].size, true)] + bs[k + 2..]
    ensures SizesOk(merged) && Total(merged) == HEAP_SIZE && bs == merged[..k] + [bs[k], bs[k + 1]] + merged[k + 1..]
    ensures merged[..k] == bs[..k] && merged[k..] == [Block(bs[k].size + HEADER + bs[k + 1].size, true)] + bs[k + 2..]
    ensures merged[k].size < HEAP_SIZE
  {
    hide Total, Address, SizeOk;
    var a, b := bs[k], bs[k + 1];
    SizeSum(a.size, b.size);
    TotalTwo(a, b);
    assert bs == merged[..k] + [a, b] + merged[k + 1..];
    TotalAround(merged, k, [a, b]);
    SizeBound(merged, k);
  }

  lemma MergeAddress(bs: seq<Block>, k: nat, merged: seq<Block>)
    requires k + 1 < |bs| && k < |merged| && bs == merged[..k] + [bs[k], bs[k + 1]] + merged[k + 1..]
    requires merged[k].size == bs[k].size + HEADER + bs[k + 1].size
    ensures Addr(merged, k) == Addr(bs, k) && NextAddr(merged, k) == NextAddr(bs, k + 1)
  {
    hide Total, Address;
    SplitAddress(merged, k, bs[k], bs[k + 1], k);
    if k + 2 < |bs| {
      SplitAddress(merged, k, bs[k], bs[k + 1], k + 2);
    }
  }

  class Heap {
    var mem: map<int, Header>
    var head: int
    var initialized: bool
    ghost var blocks: seq<Block>

    ghost predicate Valid()
      reads this
    {
      && HeapOk(blocks)
      && (if initialized then head == HEAP_START && Stored(mem, blocks) else blocks == FreshBlocks())
    }

    constructor (memory: map<int, Header>)
      ensures Valid() && !initialized && mem == memory
    {
      mem, head, initialized, blocks := memory, 0, false, FreshBlocks();
    }

    method Init()
      requires Valid() && !initialized
      modifies this
      ensures Valid() && initialized && blocks == old(blocks)
    {
      head := HEAP_START;
      mem := mem[head := Header(HEAP_SIZE - HEADER, true, 0)];
      initialized := true;
    }

    /** First fit. Returns where the block's bytes start, or 0 if no free block is large enough. */
    method Kmalloc(size: U32) returns (p: int)
      requires Valid()
      modifies this
      ensures Valid() && initialized
      ensures var bs := old(blocks); var k := FirstFit(bs, Round(size));
        if size == 0 || k == |bs| then p == 0 && blocks == bs
        else p == Addr(bs, k) + HEADER && blocks == Taken(bs, k, Round(size))
    {
      hide Total, Address, Stored, HeapOk, SizeOk, Round;
      if !initialized {
        Init();
      }
      if size == 0 {
        return 0;
      }
      var n := Round(size);
      RoundOk(size);
      ghost var bs := blocks;
      ghost var k := 0;
      OkSizes(bs);
      NonEmpty(bs);
      AddressesPositive(bs);
      var block := head;
      while block != 0
        invariant 0 <= k <= |bs| && block == (if k < |bs| then Addr(bs, k) else 0) && (forall j :: 0 <= j < k ==> !Fits(bs[j], n))
        invariant Valid() && blocks == bs && initialized
        decreases |bs| - k
      {
        HeaderAt(mem, bs, k);
        if mem[block].free && mem[block].size >= n {
          FirstFitIs(bs, n, k);
          TakenKeeps(bs, k, n);
          TakeAt(block, n, k);
          return block + HEADER;
        }
        block := mem[block].next;
        k := k + 1;
      }
      FirstFitIs(bs, n, k);
      return 0;
    }

    /** Splits block `k`, found at `block`, if what is left over is worth a block, and marks it used. */
    method TakeAt(block: int, n: U32, ghost k: nat)
      requires Valid() && initialized && k < |blocks| && block == Addr(blocks, k) && Fits(blocks[k], n) && SizeOk(n)
      requires HeapOk(Taken(blocks, k, n))
      modifies this
      ensures Valid() && initialized && blocks == Taken(old(blocks), k, n)
    {
      hide Total, Address, Stored, HeapOk;
      ghost var bs := blocks;
      OkSizes(bs);
      HeaderAt(mem, bs, k);
      BlockBelow(bs, k);
      if mem[block].size >= n + HEADER + 4 {
        var rest := block + HEADER + n;
        var left := mem[block].size - n - HEADER;
        mem := mem[rest := Header(left, true, mem[block].next)];
        mem := mem[block := Header(n, false, rest)];
        StoredSplit(old(mem), bs, k, Block(n, false), Block(left, true), mem);
      } else {
        mem := mem[block := mem[block].(free := false)];
        StoredUpdate(old(mem), bs, k, false);
      }
      blocks := Taken(bs, k, n);
    }

    /** Block `k`, at `block`, takes in the one after it. */
    method MergeAt(block: int, ghost k: nat)
      requires Stored(mem, blocks) && SizesOk(blocks) && Total(blocks) == HEAP_SIZE
      requires k + 1 < |blocks| && block == Addr(blocks, k) && blocks[k].free && blocks[k + 1].free
      modifies this`mem, this`blocks
      ensures Stored(mem, blocks) && SizesOk(blocks) && Total(blocks) == HEAP_SIZE
      ensures blocks == old(blocks[..k] + [Block(blocks[k].size + HEADER + blocks[k + 1].size, true)] + blocks[k + 2..])
      ensures block == Addr(blocks, k) && block in mem
    {
      hide Total, Address, Stored;
      ghost var a, b := blocks[k], blocks[k + 1];
      ghost var merged := blocks[..k] + [Block(a.size + HEADER + b.size, true)] + blocks[k + 2..];
      HeaderAt(mem, blocks, k);
      HeaderAt(mem, blocks, k + 1);
      MergeFacts(blocks, k, merged);
      MergeAddress(blocks, k, merged);
      var next := mem[block].next;
      mem := mem[block := Header(mem[block].size + HEADER + mem[next].size, true, mem[next].next)];
      StoredMerge(old(mem), merged, k, a, b, mem);
      blocks := merged;
    }

    /** Merges free neighbours all along the chain. */
    method Coalesce()
      requires initialized && head == HEAP_START && Stored(mem, blocks) && SizesOk(blocks) && Total(blocks) == HEAP_SIZE
      modifies this`mem, this`blocks
      ensures Valid() && blocks == Coalesced(old(blocks))
    {
      hide Total, Address, Stored, Coalesced, SizesOk, Underway;
      ghost var bs, k := blocks, 0;
      NonEmpty(bs);
      var block := head;
      HeaderAt(mem, bs, 0);
      CoalesceStarts(bs);
      while block != 0 && mem[block].next != 0
        invariant 0 <= k < |blocks| && block == Addr(blocks, k) && block in mem
        invariant Stored(mem, blocks) && SizesOk(blocks) && Total(blocks) == HEAP_SIZE && Underway(bs, blocks, k)
        decreases |blocks| - k
      {
        HeaderAt(mem, blocks, k);
        HeaderAt(mem, blocks, k + 1);
        if mem[block].free && mem[mem[block].next].free {
          ghost var before := blocks;
          MergeAt(block, k);
          CoalesceMerges(bs, before, k, blocks);
        } else {
          CoalesceSkips(bs, blocks, k);
          block := mem[block].next;
          k := k + 1;
        }
      }
      HeaderAt(mem, blocks, k);
      CoalesceEnds(bs, blocks, k);
      CoalescedKeeps(bs);
    }

    /** Gives back block `k`, in use, whose bytes start at `p`; nothing for the null pointer. */
    method Kfree(p: int, ghost k: nat)
      requires Valid()
      requires p != 0 ==> initialized && k < |blocks| && !blocks[k].free && p == Addr(blocks, k) + HEADER
      modifies this
      ensures Valid()
      ensures blocks == if p == 0 then old(blocks) else Released(old(blocks), k)
    {
      hide Total, Address, Stored;
      if p == 0 {
        return;
      }
      var block := p - HEADER;
      HeaderAt(mem, blocks, k);
      ghost var b := Block(blocks[k].size, true);
      StoredUpdate(mem, blocks, k, true);
      TotalUpdate(blocks, k, b);
      mem := mem[block := mem[block].(free := true)];
      blocks := blocks[k := b];
      Coalesce();
    }

    /** The usable size of a block in use. */
    method KallocSize(p: int, ghost k: nat) returns (size: U32)
      requires Valid()
      requires p != 0 ==> initialized && k < |blocks| && p == Addr(blocks, k) + HEADER
      ensures p == 0 ==> size == 0
      ensures p != 0 ==> size == blocks[k].size
    {
      hide Total, Address, Stored;
      if p == 0 {
        return 0;
      }
      HeaderAt(mem, blocks, k);
      return mem[p - HEADER].size;
    }
  }

  // ---- requests ----

  /** What was handed out is large enough unless rounding up has wrapped, that is, for all requests up to the limit and
      for none above it. */
  lemma EnoughUnlessWrapped(bs: seq<Block>, size: U32)
    requires HeapOk(bs) && size > 0
    ensures var n := Round(size); var k := FirstFit(bs, n);
      k < |bs| ==> k < |Taken(bs, k, n)| && (Taken(bs, k, n)[k].size >= size <==> size <= MAX_REQUEST)
  {
    hide Total;
    var k := FirstFit(bs, Round(size));
    if k < |bs| {
      BlockBelow(bs, k);
    }
  }

  /** The largest request, 2^32 - 1, succeeds on a fresh heap with a block of no bytes. */
  lemma WrappedRequest()
    ensures HeapOk(FreshBlocks()) && Round(0xFFFF_FFFF) == 0
    ensures Taken(FreshBlocks(), FirstFit(FreshBlocks(), 0), 0) == [Block(0, false), Block(HEAP_SIZE - 24, true)]
  {
    assert FreshBlocks()[1..] == [];
    assert Fits(FreshBlocks()[0], 0);
  }

  /** A request fails exactly if every maximal run of free memory is too small for it. Free neighbours are always merged,
      so a maximal run is one block, with its header. */
  lemma FailsIff(bs: seq<Block>, n: int)
    requires HeapOk(bs)
    ensures FirstFit(bs, n) == |bs| <==> forall i, j :: FreeRun(bs, i, j) ==> Total(bs[i..j]) - HEADER < n
  {
    hide HeapOk;
    var k := FirstFit(bs, n);
    forall i, j | FreeRun(bs, i, j)
      ensures j == i + 1 && Total(bs[i..j]) == HEADER + bs[i].size && bs[i].free
    {
      RunIsBlock(bs, i, j);
    }
    if k < |bs| {
      assert FreeRun(bs, k, k + 1);
    }
  }

  /** Blocks `i` to `j - 1` are free. */
  ghost predicate FreeRun(bs: seq<Block>, i: int, j: int) {
    0 <= i < j <= |bs| && forall k :: i <= k < j ==> bs[k].free
  }

  lemma RunIsBlock(bs: seq<Block>, i: int, j: int)
    requires HeapOk(bs) && FreeRun(bs, i, j)
    ensures j == i + 1 && Total(bs[i..j]) == HEADER + bs[i].size && bs[i].free
  {
    assert i + 1 < |bs| ==> !(bs[i].free && bs[i + 1].free);
    assert bs[i..i + 1] == [bs[i]];
    TotalOne(bs[i]);
  }
}
