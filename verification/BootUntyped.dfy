/** Cutting a region of memory, which may wrap around the end of the address space, into untyped chunks. */
module BootUntyped {
  import opened Words
  import opened Arith
  import opened BitCount

  const MIN_UNTYPED := 16

  datatype Chunk = Chunk(start: Word, bits: nat)

  predicate InChunk(c: Chunk, x: int) {
    c.start <= x < c.start + Pow2(c.bits)
  }

  function Length(start: Word, end: Word): Word {
    (end - start) % WORD
  }

  /** x lies in [start, end), or in [start, 2^64) or [0, end) if the region wraps. */
  predicate InRegion(start: Word, end: Word, x: Word) {
    Length(start, x) < Length(start, end)
  }

  function Advance(start: Word, bits: nat): Word {
    (start + Pow2(bits)) % WORD
  }

  /** Aligned to its size, and so not wrapping itself. */
  predicate Aligned(c: Chunk) {
    c.start % Pow2(c.bits) == 0 && c.start + Pow2(c.bits) <= WORD
  }

  /** Aligned chunks follow each other from start to cur, within the region from start to end. */
  predicate Path(start: Word, end: Word, chunks: seq<Chunk>, cur: Word)
    decreases |chunks|
  {
    if chunks == [] then start == cur
    else
      && chunks[0].start == start && Aligned(chunks[0])
      && Pow2(chunks[0].bits) <= Length(start, end)
      && Path(Advance(start, chunks[0].bits), end, chunks[1..], cur)
  }

  predicate Tiles(start: Word, end: Word, chunks: seq<Chunk>) {
    Path(start, end, chunks, end)
  }

  lemma {:induction false} PathAppend(start: Word, end: Word, chunks: seq<Chunk>, cur: Word, bits: nat)
    requires Path(start, end, chunks, cur) && Aligned(Chunk(cur, bits)) && Pow2(bits) <= Length(cur, end)
    ensures Path(start, end, chunks + [Chunk(cur, bits)], Advance(cur, bits))
    decreases |chunks|
  {
    var c := Chunk(cur, bits);
    if chunks == [] {
      assert ([] + [c])[1..] == [];
    } else {
      assert (chunks + [c])[1..] == chunks[1..] + [c];
      PathAppend(Advance(start, chunks[0].bits), end, chunks[1..], cur, bits);
    }
  }

  /** The number of chunks that hold x. */
  function Holders(chunks: seq<Chunk>, x: Word): nat {
    if chunks == [] then 0 else (if InChunk(chunks[0], x) then 1 else 0) + Holders(chunks[1..], x)
  }

  lemma LengthCases(a: Word, b: Word)
    ensures Length(a, b) == if a <= b then b - a else WORD + b - a
  {
  }

  lemma AdvanceCases(start: Word, bits: nat)
    requires start + Pow2(bits) <= WORD
    ensures Advance(start, bits) == if start + Pow2(bits) == WORD then 0 else start + Pow2(bits)
  {
    var s := start + Pow2(bits);
    if s == WORD { assert s % WORD == 0; } else { assert s % WORD == s; }
  }

  lemma {:induction false} FirstChunk(start: Word, end: Word, bits: nat, x: Word)
    requires start + Pow2(bits) <= WORD && Pow2(bits) <= Length(start, end)
    ensures Length(Advance(start, bits), end) == Length(start, end) - Pow2(bits)
    ensures InChunk(Chunk(start, bits), x) <==> Length(start, x) < Pow2(bits)
    ensures InRegion(Advance(start, bits), end, x) <==> Pow2(bits) <= Length(start, x) < Length(start, end)
  {
    hide Length, Advance, Pow2;
    AdvanceCases(start, bits);
    LengthCases(start, end);
    LengthCases(start, x);
    LengthCases(Advance(start, bits), end);
    LengthCases(Advance(start, bits), x);
  }

  /** Every address of the region lies in exactly one chunk, and no other address in any. */
  lemma {:induction false} TilesExactly(start: Word, end: Word, chunks: seq<Chunk>, x: Word)
    requires Tiles(start, end, chunks)
    ensures Holders(chunks, x) == if InRegion(start, end, x) then 1 else 0
    decreases |chunks|
  {
    if chunks != [] {
      FirstChunk(start, end, chunks[0].bits, x);
      TilesExactly(Advance(start, chunks[0].bits), end, chunks[1..], x);
    }
  }

  /** The size of the next chunk: as large as the region, the largest untyped and the alignment allow. */
  method ChunkBits(start: Word, end: Word, maxBits: nat) returns (bits: nat)
    requires start != end && MIN_UNTYPED_BITS <= maxBits < WORD_BITS
    ensures Pow2(bits) <= Length(start, end) && Aligned(Chunk(start, bits)) && bits <= maxBits
    ensures MIN_UNTYPED <= Length(start, end) && start % MIN_UNTYPED == 0 ==> MIN_UNTYPED_BITS <= bits
    ensures bits < MIN_UNTYPED_BITS && MIN_UNTYPED <= Length(start, end) ==> start % Pow2(bits + 1) != 0
  {
    hide Pow2, Length;
    var length := Length(start, end);
    LengthCases(start, end);
    var zeros := Clz64(length);
    bits := WORD_BITS - 1 - zeros;
    if bits > maxBits { Pow2Monotone(maxBits, bits); bits := maxBits; }
    Sixteen();
    if bits + 1 <= 4 { Pow2Monotone(bits + 1, 4); }
    if start != 0 {
      var align := Ctz64(start);
      AlignedByTwo(start, align);
      if bits > align { Pow2Monotone(align, bits); bits := align; }
      AlignedBelow(start, align, bits);
      if start % MIN_UNTYPED == 0 { AlignmentAtLeast(start, align, 4); }
    } else {
      MultipleModulo(0, Pow2(bits));
    }
    AlignedFits(start, bits);
  }

  lemma Sixteen()
    ensures Pow2(4) == 16
  {
  }

  /** An odd multiple of 2^align is not a multiple of anything higher. */
  lemma AlignedByTwo(w: Word, align: nat)
    requires w % Pow2(align) == 0 && (w / Pow2(align)) % 2 == 1
    ensures w % Pow2(align + 1) != 0
  {
    var h := Pow2(align);
    QuotientRemainder(w, h);
    var q := w / h;
    QuotientRemainder(q, 2);
    MulSum(q / 2 * 2, 1, h);
    MulAssoc(q / 2, 2, h);
    DivideUnique(w, 2 * h, q / 2, h);
  }

  lemma AlignedBelow(w: nat, align: nat, bits: nat)
    requires bits <= align && w % Pow2(align) == 0
    ensures w % Pow2(bits) == 0
  {
    hide Pow2;
    Pow2Add(align - bits, bits);
    QuotientRemainder(w, Pow2(align));
    var q := w / Pow2(align);
    MulAssoc(q, Pow2(align - bits), Pow2(bits));
    MulNonNegative(q, Pow2(align - bits));
    MultipleModulo(q * Pow2(align - bits), Pow2(bits));
  }

  lemma AlignmentAtLeast(w: nat, align: nat, bits: nat)
    requires w % Pow2(align + 1) != 0 && w % Pow2(bits) == 0
    ensures bits <= align
  {
    if align + 1 <= bits { AlignedBelow(w, bits, align + 1); }
  }

  /** An aligned chunk ends at or before the end of the address space. */
  lemma AlignedFits(start: Word, bits: nat)
    requires bits < WORD_BITS && start % Pow2(bits) == 0
    ensures start + Pow2(bits) <= WORD
  {
    hide Pow2;
    var s, n := Pow2(bits), Pow2(WORD_BITS - bits);
    Pow2Word();
    Pow2Add(WORD_BITS - bits, bits);
    QuotientRemainder(start, s);
    DivideBelow(start, s, n);
    MulLe(start / s + 1, n, s);
    MulSum(start / s, 1, s);
  }

  function Keep(c: Chunk): seq<Chunk> {
    if c.bits >= MIN_UNTYPED_BITS then [c] else []
  }

  /** The chunks large enough to be given to the root server. */
  function Usable(chunks: seq<Chunk>): seq<Chunk> {
    if chunks == [] then [] else Keep(chunks[0]) + Usable(chunks[1..])
  }

  lemma {:induction false} UsableAppend(chunks: seq<Chunk>, c: Chunk)
    ensures Usable(chunks + [c]) == Usable(chunks) + Keep(c)
  {
    hide Keep;
    if chunks == [] {
      assert [] + [c] == [c] && [c][1..] == [];
    } else {
      var rest := chunks[1..];
      assert (chunks + [c])[1..] == rest + [c] && (chunks + [c])[0] == chunks[0];
      UsableAppend(rest, c);
      assert Keep(chunks[0]) + (Usable(rest) + Keep(c)) == (Keep(chunks[0]) + Usable(rest)) + Keep(c);
    }
  }

  /** Every chunk of at least the minimum size is kept, and no other. */
  lemma {:induction false} UsableAreLarge(chunks: seq<Chunk>, c: Chunk)
    ensures c in Usable(chunks) <==> c in chunks && MIN_UNTYPED_BITS <= c.bits
    ensures (forall i :: 0 <= i < |chunks| ==> MIN_UNTYPED_BITS <= chunks[i].bits) ==> Usable(chunks) == chunks
  {
    if chunks != [] {
      UsableAreLarge(chunks[1..], c);
      assert chunks == [chunks[0]] + chunks[1..];
      assert forall i :: 0 <= i < |chunks| - 1 ==> chunks[1..][i] == chunks[i + 1];
    }
  }

  /** What provide_untyped_cap checks; device memory may lie outside the kernel window [low, high). */
  predicate Providable(c: Chunk, maxBits: nat, device: bool, low: nat, high: nat) {
    && MIN_UNTYPED_BITS <= c.bits <= maxBits && Aligned(c)
    && (device || (low <= c.start < high && low <= c.start + Pow2(c.bits) - 1 < high))
  }

  /** Until the first boundary of the minimum untyped size, cur lies in the same unit as start. */
  predicate NearStart(start: Word, cur: Word) {
    cur % MIN_UNTYPED != 0 ==> Length(start, cur) + start % MIN_UNTYPED == cur % MIN_UNTYPED
  }

  /** Too small a chunk lies less than the minimum untyped size from one end of the region. */
  predicate LostNearEnds(start: Word, end: Word, c: Chunk) {
    c.bits < MIN_UNTYPED_BITS ==> Length(start, c.start) < MIN_UNTYPED || Length(c.start, end) < MIN_UNTYPED
  }

  lemma NearStartStep(start: Word, end: Word, cur: Word, bits: nat)
    requires Aligned(Chunk(cur, bits)) && NearStart(start, cur) && MIN_UNTYPED <= Length(cur, end)
    requires cur % MIN_UNTYPED == 0 ==> MIN_UNTYPED_BITS <= bits
    ensures NearStart(start, Advance(cur, bits))
    ensures cur % MIN_UNTYPED == 0 ==> Advance(cur, bits) % MIN_UNTYPED == 0
  {
    hide Length, Advance, Pow2;
    AdvanceCases(cur, bits);
    if bits >= 4 {
      SmallModulo(cur, bits);
    } else {
      SmallPower(bits);
      LengthCases(start, cur);
      LengthCases(start, Advance(cur, bits));
      SmallStep(cur, Pow2(bits));
    }
  }

  /** A step of an aligned small power of two does not jump over a boundary. */
  lemma SmallStep(cur: nat, size: nat)
    requires size in {1, 2, 4, 8} && cur % size == 0 && cur % 16 != 0
    ensures (cur + size) % 16 == (if cur % 16 + size == 16 then 0 else cur % 16 + size) && cur % 16 + size <= 16
  {
  }

  /** A multiple of a larger power of two, and that power itself, are multiples of 16. */
  lemma SmallModulo(w: nat, bits: nat)
    requires bits >= 4 && w % Pow2(bits) == 0
    ensures w % 16 == 0 && Pow2(bits) % 16 == 0 && (w + Pow2(bits)) % 16 == 0
  {
    hide Pow2;
    Sixteen();
    AlignedBelow(w, bits, 4);
    Pow2Add(bits - 4, 4);
    MultipleModulo(Pow2(bits - 4), 16);
  }

  lemma SmallPower(bits: nat)
    requires bits < 4
    ensures Pow2(bits) in {1, 2, 4, 8}
  {
    assert Pow2(0) == 1 && Pow2(1) == 2 && Pow2(2) == 4 && Pow2(3) == 8;
  }

  lemma DeviceProvides(c: Chunk, maxBits: nat, low: nat, high: nat)
    requires MIN_UNTYPED_BITS <= c.bits <= maxBits && Aligned(c)
    ensures Providable(c, maxBits, true, low, high)
  {
  }

  lemma StartsNear(start: Word, end: Word)
    ensures NearStart(start, start) && Path(start, end, [], start) && Usable([]) == []
  {
    LengthCases(start, start);
  }

  /** Between two boundaries there is room for a chunk of the minimum size. */
  lemma AlignedRoom(cur: Word, end: Word)
    requires cur != end && cur % MIN_UNTYPED == 0 && end % MIN_UNTYPED == 0
    ensures MIN_UNTYPED <= Length(cur, end)
  {
    hide Length;
    LengthCases(cur, end);
  }

  /** What one iteration keeps. */
  lemma ChunkStep(start: Word, end: Word, chunks: seq<Chunk>, cur: Word, bits: nat)
    requires cur != end && Path(start, end, chunks, cur) && Aligned(Chunk(cur, bits)) && Pow2(bits) <= Length(cur, end)
    requires MIN_UNTYPED <= Length(cur, end) && cur % MIN_UNTYPED == 0 ==> MIN_UNTYPED_BITS <= bits
    requires Length(cur, end) < MIN_UNTYPED || NearStart(start, cur)
    ensures Path(start, end, chunks + [Chunk(cur, bits)], Advance(cur, bits))
    ensures Length(Advance(cur, bits), end) < Length(cur, end)
    ensures Length(Advance(cur, bits), end) < MIN_UNTYPED || NearStart(start, Advance(cur, bits))
    ensures LostNearEnds(start, end, Chunk(cur, bits))
    ensures cur % MIN_UNTYPED == 0 && end % MIN_UNTYPED == 0 ==>
              MIN_UNTYPED_BITS <= bits && Advance(cur, bits) % MIN_UNTYPED == 0
  {
    hide Pow2, Path, Length, Advance;
    PathAppend(start, end, chunks, cur, bits);
    FirstChunk(cur, end, bits, cur);
    if MIN_UNTYPED <= Length(cur, end) { NearStartStep(start, end, cur, bits); }
    if cur % MIN_UNTYPED == 0 && end % MIN_UNTYPED == 0 { AlignedRoom(cur, end); }
  }

  /** create_untypeds_for_region: the chunks it cuts, and the ones it provides caps for. */
  method CreateUntypeds(start: Word, end: Word, maxBits: nat, device: bool, low: nat, high: nat)
    returns (ok: bool, chunks: seq<Chunk>, caps: seq<Chunk>)
    requires MIN_UNTYPED_BITS <= maxBits < WORD_BITS
    ensures ok ==> Tiles(start, end, chunks) && caps == Usable(chunks)
    ensures ok ==> forall c :: c in caps <==> c in chunks && MIN_UNTYPED_BITS <= c.bits
    ensures ok ==> forall i :: 0 <= i < |caps| ==> Providable(caps[i], maxBits, device, low, high)
    ensures ok ==> forall i :: 0 <= i < |chunks| ==> LostNearEnds(start, end, chunks[i])
    ensures start % MIN_UNTYPED == 0 && end % MIN_UNTYPED == 0 ==>
              forall i :: 0 <= i < |chunks| ==> chunks[i].bits >= MIN_UNTYPED_BITS
    ensures device ==> ok
  {
    hide Pow2, Path, Length, Advance, Aligned, NearStart, LostNearEnds, Providable, Usable;
    var cur: Word := start;
    chunks, caps := [], [];
    StartsNear(start, end);
    while cur != end
      invariant Path(start, end, chunks, cur) && caps == Usable(chunks)
      invariant Length(cur, end) < MIN_UNTYPED || NearStart(start, cur)
      invariant forall i :: 0 <= i < |caps| ==> Providable(caps[i], maxBits, device, low, high)
      invariant forall i :: 0 <= i < |chunks| ==> LostNearEnds(start, end, chunks[i])
      invariant start % MIN_UNTYPED == 0 && end % MIN_UNTYPED == 0 ==>
                  cur % MIN_UNTYPED == 0 && forall i :: 0 <= i < |chunks| ==> chunks[i].bits >= MIN_UNTYPED_BITS
      decreases Length(cur, end)
    {
      var bits := ChunkBits(cur, end, maxBits);
      var c := Chunk(cur, bits);
      ChunkStep(start, end, chunks, cur, bits);
      UsableAppend(chunks, c);
      chunks := chunks + [c];
      if bits >= MIN_UNTYPED_BITS {
        DeviceProvides(c, maxBits, low, high);
        if !Providable(c, maxBits, device, low, high) { return false, chunks, caps; }
        caps := caps + [c];
      }
      cur := Advance(cur, bits);
    }
    forall c ensures c in caps <==> c in chunks && MIN_UNTYPED_BITS <= c.bits { UsableAreLarge(chunks, c); }
    return true, chunks, caps;
  }
}
