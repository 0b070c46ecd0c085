/** The objects of the root server, laid out one after the other in one block. */
module BootRootServer {
  import opened Words
  import opened Arith
  import BitCount
  import BootMemory
  import BootFreemem

  /** The sizes that the configuration fixes, as exponents of two. */
  datatype Sizes = Sizes(cnode: nat, vspace: nat, page: nat, tcb: nat, pageTable: nat, schedContext: nat)

  /**
   * What the order of the allocations relies on: the root CNode and the root address space have at least a
   * page, thread and page tables at most a page, and the scheduling context is no larger than either.
   */
  predicate Sane(z: Sizes) {
    z.page > 0 && z.schedContext <= z.tcb <= z.page <= z.cnode && z.schedContext <= z.pageTable <= z.page <= z.vspace
  }

  function Max(a: nat, b: nat): nat {
    if a >= b then a else b
  }

  /** rootserver_max_size_bits */
  function MaxBits(z: Sizes, extra: nat): nat {
    Max(Max(z.cnode, z.vspace), extra)
  }

  /** The least exponent from b on that makes room for n bytes. */
  function Room(n: nat, b: nat): (r: nat)
    ensures b <= r && n <= Pow2(r) && (b < r ==> Pow2(r - 1) < n)
    decreases if n <= Pow2(b) then 0 else n - Pow2(b)
  {
    if n <= Pow2(b) then b else Room(n, b + 1)
  }

  /** No larger exponent than needed: the least is the only one that is large enough and not twice too large. */
  lemma RoomIsLeast(n: nat, b: nat, r: nat)
    requires b <= r && n <= Pow2(r) && (b < r ==> Pow2(r - 1) < n)
    ensures Room(n, b) == r
  {
    hide Pow2;
    var q := Room(n, b);
    if q < r {
      Pow2Monotone(q, r - 1);
    } else if r < q {
      Pow2Monotone(r, q - 1);
    }
  }

  /** The exponent of the extra boot information: none if there is none, and otherwise at least a page. */
  function ExtraBits(size: nat, page: nat): nat {
    if size == 0 then 0 else Room(size, page)
  }

  /** Rounding up to whole pages, without wrapping. */
  lemma RoundedUp(n: nat, p: nat)
    requires n > 0 && p > 0
    ensures var up := ((n - 1) / p + 1) * p; n <= up < n + p && up % p == 0
  {
    QuotientRemainder(n - 1, p);
    MulSum((n - 1) / p, 1, p);
    MultipleModulo((n - 1) / p + 1, p);
  }

  /** The highest set bit of the rounded size, or the place above it, is the room that is needed. */
  lemma HighestBit(n: nat, page: nat, up: nat, msb: nat)
    requires n > 0 && n <= up < n + Pow2(page) && up % Pow2(page) == 0 && Pow2(msb) <= up < Pow2(msb + 1)
    ensures Room(n, page) == if n > Pow2(msb) then msb + 1 else msb
  {
    AtLeastOnePage(up, page, msb);
    if msb > page { Pow2Monotone(page, msb - 1); }
    RoomIsLeast(n, page, if n > Pow2(msb) then msb + 1 else msb);
  }

  lemma AtLeastOnePage(up: nat, page: nat, msb: nat)
    requires 0 < up < Pow2(msb + 1) && up % Pow2(page) == 0
    ensures page <= msb
  {
    hide Pow2;
    QuotientRemainder(up, Pow2(page));
    MulLe(1, up / Pow2(page), Pow2(page));
    if msb < page { Pow2Monotone(msb + 1, page); }
  }

  /** calculate_extra_bi_size_bits: by counting the leading zeros of the size in whole pages. */
  method ExtraInfoBits(size: Word, page: nat) returns (bits: nat)
    requires size + Pow2(page) <= WORD
    ensures bits == ExtraBits(size, page)
  {
    hide Pow2, Room;
    if size == 0 {
      return 0;
    }
    RoundedUp(size, Pow2(page));
    var up: Word := ((size - 1) / Pow2(page) + 1) * Pow2(page);
    var zeros := BitCount.Clz64(up);
    bits := 63 - zeros;
    HighestBit(size, page, up, bits);
    if size > Pow2(bits) {
      bits := bits + 1;
    }
  }

  /** calculate_rootserver_size; `extra` is the exponent of the extra boot information, or 0. */
  function TotalSize(z: Sizes, extra: nat, tables: nat): nat {
    MulNonNegative(tables, Pow2(z.pageTable));
    Pow2(z.cnode) + Pow2(z.tcb) + Pow2(z.page) + Pow2(z.page) + Pow2(z.page) + (if extra > 0 then Pow2(extra) else 0)
    + Pow2(z.vspace) + Pow2(z.schedContext) + tables * Pow2(z.pageTable)
  }

  /** count objects of 2^bits bytes each, from the address `at` on. */
  datatype Block = Block(at: nat, bits: nat, count: nat)

  function End(b: Block): nat {
    MulNonNegative(b.count, Pow2(b.bits));
    b.at + b.count * Pow2(b.bits)
  }

  predicate Aligned(b: Block) {
    b.at % Pow2(b.bits) == 0
  }

  /** The blocks follow each other without a gap from `from` to `to`. */
  predicate Tiles(blocks: seq<Block>, from: nat, to: nat) {
    if blocks == [] then from == to
    else var last := |blocks| - 1; Tiles(blocks[..last], from, blocks[last].at) && to == End(blocks[last])
  }

  predicate AllAligned(blocks: seq<Block>) {
    forall b | b in blocks :: Aligned(b)
  }

  lemma TilesAppend(blocks: seq<Block>, from: nat, b: Block)
    requires Tiles(blocks, from, b.at)
    ensures Tiles(blocks + [b], from, End(b))
  {
    assert (blocks + [b])[..|blocks|] == blocks;
  }

  lemma EndsLater(b: Block)
    ensures b.at <= End(b)
  {
    MulNonNegative(b.count, Pow2(b.bits));
  }

  /** No two blocks share an address. */
  lemma {:induction false} TilesApart(blocks: seq<Block>, from: nat, to: nat)
    requires Tiles(blocks, from, to)
    ensures from <= to
    ensures forall i, j | 0 <= i < j < |blocks| :: End(blocks[i]) <= blocks[j].at
    ensures forall i | 0 <= i < |blocks| :: from <= blocks[i].at && End(blocks[i]) <= to
  {
    hide End;
    if blocks != [] {
      var last := |blocks| - 1;
      var front := blocks[..last];
      TilesApart(front, from, blocks[last].at);
      assert forall i | 0 <= i < last :: front[i] == blocks[i];
      EndsLater(blocks[last]);
    }
  }

  predicate Within(b: Block, x: nat) {
    b.at <= x < End(b)
  }

  /** Each address belongs to a block. */
  lemma {:induction false} TilesCover(blocks: seq<Block>, from: nat, to: nat, x: nat)
    requires Tiles(blocks, from, to) && from <= x < to
    ensures exists b :: b in blocks && Within(b, x)
  {
    hide End;
    var last := |blocks| - 1;
    if x < blocks[last].at {
      TilesCover(blocks[..last], from, blocks[last].at, x);
      var b :| b in blocks[..last] && Within(b, x);
      assert b in blocks;
    } else {
      assert blocks[last] in blocks && Within(blocks[last], x);
    }
  }

  /** After objects of one size, memory is aligned for every smaller size. */
  lemma StillAligned(p: nat, bits: nat, count: nat, smaller: nat)
    requires p % Pow2(bits) == 0 && smaller <= bits
    ensures 0 <= count * Pow2(bits) && (p + count * Pow2(bits)) % Pow2(smaller) == 0
  {
    Pow2Add(bits - smaller, smaller);
    hide Pow2;
    var s, k, size := Pow2(smaller), Pow2(bits - smaller), Pow2(bits);
    var q := p / size;
    QuotientRemainder(p, size);
    MulNonNegative(count, size);
    assert p + count * size == (q + count) * size by { Distribute(q, count, size); }
    assert (q + count) * size == ((q + count) * k) * s by { MulAssoc(q + count, k, s); }
    MulNonNegative(q + count, k);
    MultipleModulo((q + count) * k, s);
  }

  lemma Distribute(a: nat, b: nat, c: nat)
    ensures a * c + b * c == (a + b) * c
  {
  }

  /** No object is larger than the one before it. */
  predicate Descending(blocks: seq<Block>) {
    forall i, j | 0 <= i < j < |blocks| :: blocks[i].bits >= blocks[j].bits
  }

  /** Of blocks that do not grow, all are aligned exactly if the first one is. */
  lemma {:induction false} AlignedExactly(blocks: seq<Block>, from: nat, to: nat)
    requires Tiles(blocks, from, to) && blocks != [] && Descending(blocks)
    ensures AllAligned(blocks) <==> from % Pow2(blocks[0].bits) == 0
    ensures AllAligned(blocks) ==> forall bits: nat | bits <= blocks[|blocks| - 1].bits :: to % Pow2(bits) == 0
  {
    hide Pow2;
    var last := |blocks| - 1;
    var front, b := blocks[..last], blocks[last];
    if front == [] {
      assert blocks == [b];
    } else {
      AlignedExactly(front, from, b.at);
      assert blocks == front + [b] && b.bits <= front[last - 1].bits;
      assert AllAligned(front) ==> Aligned(b);
      assert AllAligned(blocks) <==> AllAligned(front) && Aligned(b);
    }
    if AllAligned(blocks) {
      assert b in blocks;
      forall bits: nat | bits <= b.bits ensures to % Pow2(bits) == 0 { StillAligned(b.at, b.bits, b.count, bits); }
    }
  }

  class RootServer {
    const sizes: Sizes
    /** rootserver_mem */
    var start: nat
    var end: nat
    /** The objects; 0 stands for none yet. */
    var cnode: nat
    var vspace: nat
    var extraInfo: nat
    var asidPool: nat
    var ipcBuffer: nat
    var bootInfo: nat
    var tcb: nat
    var paging: nat
    var pagingEnd: nat
    var schedContext: nat
    /** The allocations so far. */
    ghost var first: nat
    ghost var blocks: seq<Block>

    constructor (sizes: Sizes)
      ensures this.sizes == sizes && extraInfo == 0
    {
      this.sizes := sizes;
      extraInfo := 0;
    }

    ghost predicate Valid()
      reads this
    {
      0 < first && Tiles(blocks, first, start) && Descending(blocks)
    }

    /** An object of that size may follow. */
    ghost predicate MayFollow(bits: nat)
      reads this
    {
      blocks == [] || blocks[|blocks| - 1].bits >= bits
    }

    /** alloc_rootserver_obj */
    method Alloc(bits: nat, n: nat) returns (p: nat)
      requires Valid() && MayFollow(bits)
      modifies `start, `blocks
      ensures Valid() && blocks == old(blocks) + [Block(p, bits, n)]
      ensures p == old(start) && start == End(Block(p, bits, n)) && 0 < p
    {
      p := start;
      MulNonNegative(n, Pow2(bits));
      start := start + n * Pow2(bits);
      TilesAppend(blocks, first, Block(p, bits, n));
      TilesApart(blocks, first, p);
      blocks := blocks + [Block(p, bits, n)];
    }

    /** maybe_alloc_extra_bi */
    method MaybeAllocExtra(least: nat, extra: nat)
      requires Valid() && (extra < least || extraInfo != 0 || MayFollow(extra))
      modifies `start, `blocks, `extraInfo
      ensures Valid()
      ensures if extra >= least && old(extraInfo) == 0
              then && extraInfo == old(start) > 0 && start == old(start) + Pow2(extra)
                   && blocks == old(blocks) + [Block(extraInfo, extra, 1)]
              else extraInfo == old(extraInfo) && start == old(start) && blocks == old(blocks)
    {
      if extra >= least && extraInfo == 0 {
        extraInfo := Alloc(extra, 1);
      }
    }

    /** The root CNode, the root address space and the extra boot information, the larger ones first. */
    method CreateLarge(extra: nat)
      requires Valid() && Sane(sizes) && extraInfo == 0 && (extra == 0 || extra >= sizes.page) && blocks == []
      modifies `start, `blocks, `extraInfo, `cnode, `vspace
      ensures Valid() && MayFollow(sizes.page) && |blocks| == (if extra > 0 then 3 else 2)
      ensures blocks[0].bits == MaxBits(sizes, extra)
      ensures start == old(start) + Pow2(sizes.cnode) + Pow2(sizes.vspace) + if extra > 0 then Pow2(extra) else 0
      ensures Block(cnode, sizes.cnode, 1) in blocks && Block(vspace, sizes.vspace, 1) in blocks
      ensures extra > 0 ==> Block(extraInfo, extra, 1) in blocks
    {
      hide Tiles, Descending, Pow2;
      if sizes.cnode > sizes.vspace {
        cnode, vspace := AllocPair(sizes.cnode, sizes.vspace, extra);
      } else {
        vspace, cnode := AllocPair(sizes.vspace, sizes.cnode, extra);
      }
    }

    /** A larger and a smaller object, and the extra boot information as soon as it is not smaller than what follows. */
    method AllocPair(big: nat, small: nat, extra: nat) returns (p: nat, q: nat)
      requires Valid() && sizes.page <= small <= big && extraInfo == 0 && blocks == []
      requires sizes.page > 0 && (extra == 0 || extra >= sizes.page)
      modifies `start, `blocks, `extraInfo
      ensures Valid() && MayFollow(sizes.page) && |blocks| == (if extra > 0 then 3 else 2)
      ensures blocks[0].bits == Max(big, extra)
      ensures start == old(start) + Pow2(big) + Pow2(small) + if extra > 0 then Pow2(extra) else 0
      ensures Block(p, big, 1) in blocks && Block(q, small, 1) in blocks
      ensures extra > 0 ==> Block(extraInfo, extra, 1) in blocks
    {
      hide Valid, Tiles, Descending, Pow2;
      MaybeAllocExtra(Max(big, extra), extra);
      p := Alloc(big, 1);
      MaybeAllocExtra(small, extra);
      q := Alloc(small, 1);
      MaybeAllocExtra(sizes.page, extra);
    }

    /** The objects of one page. */
    method CreatePages()
      requires Valid() && MayFollow(sizes.page)
      modifies `start, `blocks, `asidPool, `ipcBuffer, `bootInfo
      ensures Valid() && MayFollow(sizes.page) && start == old(start) + 3 * Pow2(sizes.page)
      ensures |blocks| == |old(blocks)| + 3 && old(blocks) <= blocks
      ensures Block(asidPool, sizes.page, 1) in blocks && Block(ipcBuffer, sizes.page, 1) in blocks
      ensures Block(bootInfo, sizes.page, 1) in blocks
    {
      hide Tiles, Descending, Pow2;
      asidPool := Alloc(sizes.page, 1);
      ipcBuffer := Alloc(sizes.page, 1);
      bootInfo := Alloc(sizes.page, 1);
    }

    /** The thread, the page tables and the scheduling context. */
    method CreateSmall(tables: nat)
      requires Valid() && Sane(sizes) && MayFollow(sizes.page)
      modifies `start, `blocks, `tcb, `paging, `pagingEnd, `schedContext
      ensures Valid() && |blocks| == |old(blocks)| + 3 && old(blocks) <= blocks
      ensures start == old(start) + Pow2(sizes.tcb) + tables * Pow2(sizes.pageTable) + Pow2(sizes.schedContext)
      ensures Block(tcb, sizes.tcb, 1) in blocks && Block(schedContext, sizes.schedContext, 1) in blocks
      ensures Block(paging, sizes.pageTable, tables) in blocks
              && pagingEnd == End(Block(paging, sizes.pageTable, tables))
    {
      hide Tiles, Descending, Pow2;
      if sizes.tcb >= sizes.pageTable {
        tcb := Alloc(sizes.tcb, 1);
      }
      paging := Alloc(sizes.pageTable, tables);
      MulNonNegative(tables, Pow2(sizes.pageTable));
      pagingEnd := paging + tables * Pow2(sizes.pageTable);
      if sizes.tcb < sizes.pageTable {
        tcb := Alloc(sizes.tcb, 1);
      }
      schedContext := Alloc(sizes.schedContext, 1);
    }

    /**
     * create_rootserver_objects. The objects fill the block exactly, whatever their sizes; and the assertion that
     * each is aligned to its own size holds exactly if the block is aligned to the largest size.
     */
    method Create(from: nat, tables: nat, extra: nat)
      requires Sane(sizes) && from > 0 && extraInfo == 0 && (extra == 0 || extra >= sizes.page)
      modifies this
      ensures start == end == from + TotalSize(sizes, extra, tables) && Tiles(blocks, from, end)
      ensures AllAligned(blocks) <==> from % Pow2(MaxBits(sizes, extra)) == 0
      ensures |blocks| == if extra > 0 then 9 else 8
      ensures Block(cnode, sizes.cnode, 1) in blocks && Block(vspace, sizes.vspace, 1) in blocks
      ensures Block(asidPool, sizes.page, 1) in blocks && Block(ipcBuffer, sizes.page, 1) in blocks
      ensures Block(bootInfo, sizes.page, 1) in blocks && Block(tcb, sizes.tcb, 1) in blocks
      ensures Block(paging, sizes.pageTable, tables) in blocks
              && pagingEnd == End(Block(paging, sizes.pageTable, tables))
      ensures Block(schedContext, sizes.schedContext, 1) in blocks
      ensures extra > 0 ==> Block(extraInfo, extra, 1) in blocks
    {
      hide Tiles, Descending, Pow2, AllAligned, End, MaxBits;
      start, end := from, from + TotalSize(sizes, extra, tables);
      first, blocks := from, [];
      NoBlocks(from);
      CreateLarge(extra);
      ghost var large := blocks;
      CreatePages();
      ghost var more := blocks;
      Prefixes(large, more);
      CreateSmall(tables);
      Prefixes(more, blocks);
      AlignedExactly(blocks, from, start);
    }
  }

  lemma Prefixes(a: seq<Block>, s: seq<Block>)
    requires a <= s
    ensures forall x | x in a :: x in s
    ensures a != [] ==> s[0] == a[0]
  {
  }

  lemma NoBlocks(from: nat)
    ensures Tiles([], from, from) && Descending([])
  {
  }

  // ------------------------------------------------------------------ within the free memory

  /** Memory moved into the kernel's window starts no lower than the window. */
  lemma {:induction false} AboveOffset(available: seq<BootMemory.Region>, offset: nat, top: nat, x: int)
    requires BootMemory.Covers(BootFreemem.Clipped(available, offset, top), x)
    ensures offset <= x
  {
    var s := BootFreemem.Clipped(available, offset, top);
    var i := BootMemory.CoversIndex(s, x);
  }

  /**
   * init_freemem with the sizes that the root server needs: on success its objects fill, each aligned, one block
   * that is no longer free.
   */
  method InitMemory(free: BootFreemem.FreeMemory, root: RootServer, available: seq<BootMemory.Region>,
                    reserved: seq<BootMemory.Region>, offset: nat, top: nat, tables: nat, extraSize: Word)
    returns (ok: bool, start: nat)
    requires free.resv.Valid() && free.freemem != free.resv.slots && |available| <= free.freemem.Length
    requires 0 < offset && top < WORD
    requires Sane(root.sizes) && root.extraInfo == 0 && extraSize + Pow2(root.sizes.page) <= WORD
    requires TotalSize(root.sizes, ExtraBits(extraSize, root.sizes.page), tables) < WORD
    modifies free, free.freemem, free.resv, free.resv.slots, root
    ensures var extra := ExtraBits(extraSize, root.sizes.page);
            var size, bits := TotalSize(root.sizes, extra, tables), MaxBits(root.sizes, extra);
            && (ok <==> BootFreemem.ValidInput(available, reserved) && |free.found| < free.freemem.Length
                        && exists i :: 0 <= i < |free.found| && BootFreemem.Fits(free.found[i], size, bits))
            && (ok ==> BootFreemem.Carved(free.freemem[..], free.found, start, size) && root.end == start + size)
            && (ok && extraSize > 0 ==> Block(root.extraInfo, extra, 1) in root.blocks && extraSize <= Pow2(extra))
    ensures ok ==> BootFreemem.Difference(free.found, BootFreemem.Clipped(available, offset, top), reserved)
    ensures ok ==> AllAligned(root.blocks) && Tiles(root.blocks, start, root.end)
  {
    assert root.sizes.page > 0;
    hide Sane, TotalSize, MaxBits, AllAligned, Tiles, Pow2;
    hide BootFreemem.Carved, BootFreemem.Difference, BootFreemem.Clipped, BootFreemem.Fits, BootFreemem.ValidInput;
    var extra := ExtraInfoBits(extraSize, root.sizes.page);
    var size, bits := TotalSize(root.sizes, extra, tables), MaxBits(root.sizes, extra);
    ok, start := free.InitFreemem(available, reserved, offset, top, size, bits);
    if ok {
      BlockAbove(free.freemem[..], free.found, available, reserved, offset, top, start, root.sizes, extra, tables);
      root.Create(start, tables, extra);
    }
  }

  lemma BlockAbove(slots: seq<BootMemory.Region>, found: seq<BootMemory.Region>, available: seq<BootMemory.Region>,
                   reserved: seq<BootMemory.Region>, offset: nat, top: nat, start: nat,
                   z: Sizes, extra: nat, tables: nat)
    requires BootFreemem.Difference(found, BootFreemem.Clipped(available, offset, top), reserved)
    requires BootFreemem.Carved(slots, found, start, TotalSize(z, extra, tables))
    ensures offset <= start
  {
    hide Pow2;
    MulNonNegative(tables, Pow2(z.pageTable));
    assert TotalSize(z, extra, tables) > 0;
    assert BootMemory.Covers(found, start);
    AboveOffset(available, offset, top, start);
  }
}
