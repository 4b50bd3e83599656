/** The size, alignment and address arithmetic of the simple heap's entry points
    (common/alloc/heapsimple.c), in 64-bit words. */
module HeapWords {
  import opened HeapView

  const TWO64: int := 0x1_0000_0000_0000_0000

  predicate IsPow2(a: int)
    decreases a
  {
    a == 1 || (a > 1 && a % 2 == 0 && IsPow2(a / 2))
  }

  /** The allocation size after RTHeapSimpleAlloc adjusted it: at least 32, else rounded up to a
      multiple of 32, with the addition wrapping at 64 bits. */
  function RoundedSize(cb: nat): nat {
    if cb < 32 then 32 else (cb + 31) % TWO64 / 32 * 32
  }

  function RoundedAlignment(cbAlignment: nat): nat {
    if cbAlignment < 32 then 32 else cbAlignment
  }

  /** Rounding yields what was asked for exactly for sizes up to 2^64 - 32; above, it wraps. */
  lemma RoundedSizeExact(cb: nat)
    requires cb < TWO64
    ensures RoundedSize(cb) >= cb <==> cb <= TWO64 - 32
    ensures cb > TWO64 - 32 ==> RoundedSize(cb) == 0
    ensures cb <= TWO64 - 32 ==> RoundedSize(cb) % 32 == 0 && 32 <= RoundedSize(cb) < TWO64
    ensures cb <= TWO64 - 32 ==> if cb < 32 then RoundedSize(cb) == 32 else RoundedSize(cb) < cb + 32
  {
  }

  // ----- where a request can go, in bytes -----

  /** A block for a request is never smaller than one byte. */
  function Needed(cb: nat): nat {
    if cb == 0 then 1 else cb
  }

  /** Address x is aligned as asked, and cb bytes from it on lie in the payload of free block f. */
  ghost predicate PlaceIn(m: View, base: int, f: int, x: int, cb: nat, cbAlignment: nat) {
    && (cbAlignment == 0 || x % cbAlignment == 0)
    && IsFree(m, f) && 32 * (base + f + 1) <= x && x + Needed(cb) <= 32 * (base + End(m, f))
  }

  /** There is room at x for cb bytes on that alignment. */
  ghost predicate IsPlace(m: View, base: int, x: int, cb: nat, cbAlignment: nat) {
    exists f :: PlaceIn(m, base, f, x, cb, cbAlignment)
  }

  /** The unit the map counts alignments in: granules, at least one. */
  function AlignUnits(cbAlignment: nat): nat {
    if cbAlignment <= 32 then 1 else cbAlignment / 32
  }

  /** The gap is the shortest way up to a multiple of the alignment. */
  lemma GapMinimal(base: int, f: int, align: int, y: int)
    requires align > 0 && y % align == 0 && y >= base + f + 1
    ensures base + f + 1 + Gap(base, f, align) <= y
  {
    GapBounds(base, f, align);
    var z := base + f + 1 + Gap(base, f, align);
    hide Gap;
    NextMultiple(y, z, align);
  }

  lemma NextMultiple(y: int, z: int, align: int)
    requires align > 0 && y % align == 0 && z % align == 0
    ensures y < z ==> z - y >= align
  {
    var q, r := y / align, z / align;
    assert y == align * q && z == align * r;
    assert align * (r - q) == z - y;
    MultipleGrows(r - q, align);
  }

  /** The first granule of the block that is aligned comes no later than any aligned byte. */
  lemma FirstGranule(base: int, f: int, x: int, cbAlignment: nat) returns (y: int)
    requires (cbAlignment == 0 || IsPow2(cbAlignment)) && 32 * (base + f + 1) <= x
    requires cbAlignment == 0 || x % cbAlignment == 0
    ensures base + f + 1 + Gap(base, f, AlignUnits(cbAlignment)) <= y && 32 * y <= x
  {
    y := base + f + 1;
    if cbAlignment > 32 {
      Pow2Multiple(cbAlignment);
      var a, q := cbAlignment / 32, x / cbAlignment;
      assert x == cbAlignment * q && cbAlignment == 32 * a;
      y := a * q;
      assert x == 32 * y;
      hide IsPow2;
      MultipleHasNoRemainder(q, a);
      GapMinimal(base, f, a, y);
    } else {
      assert Gap(base, f, 1) == 0;
    }
  }

  /** The coded search looks for granules: it misses no place, and starts at the lowest. */
  lemma PlaceFits(m: View, base: int, f: int, x: int, cb: nat, cbAlignment: nat)
    requires cb < TWO64 && (cbAlignment == 0 || IsPow2(cbAlignment))
    requires PlaceIn(m, base, f, x, cb, cbAlignment)
    ensures Fits(m, base, f, RoundedSize(cb) / 32, AlignUnits(cbAlignment))
    ensures 32 * (base + f + 1 + Gap(base, f, AlignUnits(cbAlignment))) <= x
  {
    var y := FirstGranule(base, f, x, cbAlignment);
    GapBounds(base, f, AlignUnits(cbAlignment));
    SizeInGranules(cb);
    hide Gap, IsPow2, RoundedSize, AlignUnits;
  }

  lemma SizeInGranules(cb: nat)
    requires cb < TWO64
    ensures 0 <= RoundedSize(cb) / 32 && 32 * (RoundedSize(cb) / 32) < Needed(cb) + 32
    ensures cb <= TWO64 - 32 ==> RoundedSize(cb) / 32 == (Needed(cb) + 31) / 32 >= 1
    ensures cb <= TWO64 - 32 ==> 32 * (RoundedSize(cb) / 32) >= Needed(cb)
  {
    RoundedSizeExact(cb);
  }

  /** And where it finds room there is a place. */
  lemma FitIsPlace(m: View, base: int, f: int, cb: nat, cbAlignment: nat)
    requires cb <= TWO64 - 32 && (cbAlignment == 0 || IsPow2(cbAlignment))
    requires Fits(m, base, f, RoundedSize(cb) / 32, AlignUnits(cbAlignment))
    ensures PlaceIn(m, base, f, 32 * (base + f + 1 + Gap(base, f, AlignUnits(cbAlignment))), cb, cbAlignment)
  {
    StartIsAligned(base, f, cbAlignment);
    GapBounds(base, f, AlignUnits(cbAlignment));
    SizeInGranules(cb);
    hide Gap, IsPow2, RoundedSize, AlignUnits;
  }

  lemma StartIsAligned(base: int, f: int, cbAlignment: nat)
    requires cbAlignment != 0 ==> IsPow2(cbAlignment)
    ensures cbAlignment != 0 ==> 32 * (base + f + 1 + Gap(base, f, AlignUnits(cbAlignment))) % cbAlignment == 0
  {
    if cbAlignment != 0 {
      GapBounds(base, f, AlignUnits(cbAlignment));
      hide Gap, IsPow2, AlignUnits;
      GranuleAligned(base + f + 1 + Gap(base, f, AlignUnits(cbAlignment)), cbAlignment);
    }
  }

  /** A granule address on an alignment in granules is a byte address on that asked for. */
  lemma GranuleAligned(y: int, asked: nat)
    requires IsPow2(asked) && y % AlignUnits(asked) == 0
    ensures (32 * y) % asked == 0
  {
    Pow2Multiple(asked);
    hide IsPow2;
    if asked > 32 {
      var a := asked / 32;
      assert asked == 32 * a;
      AlignedBytes(y, a);
    } else {
      var k := 32 / asked;
      assert 32 == asked * k;
      assert 32 * y == asked * (k * y);
      MultipleHasNoRemainder(k * y, asked);
    }
  }

  /** The block that first fit picks holds the lowest place of all for the request. */
  lemma LowestPlace(m: View, n: int, base: int, b: int, cb: nat, cbAlignment: nat)
    requires Tiled(m, n) && cb <= TWO64 - 32 && cbAlignment < TWO64 && (cbAlignment == 0 || IsPow2(cbAlignment))
    requires var u, a := RoundedSize(cb) / 32, AlignUnits(cbAlignment);
      Picked(m, base, b, u, a) && Fits(m, base, b, u, a)
    ensures IsLowestPlace(m, base, 32 * (base + b + 1 + Gap(base, b, AlignUnits(cbAlignment))), cb, cbAlignment)
  {
    var u, a := RoundedSize(cb) / 32, AlignUnits(cbAlignment);
    var p := 32 * (base + b + 1 + Gap(base, b, a));
    FitIsPlace(m, base, b, cb, cbAlignment);
    SizeInGranules(cb);
    AlignInRange(cbAlignment);
    hide IsPow2, RoundedSize, AlignUnits;
    forall x | IsPlace(m, base, x, cb, cbAlignment) ensures p <= x {
      var f :| PlaceIn(m, base, f, x, cb, cbAlignment);
      PlaceFits(m, base, f, x, cb, cbAlignment);
      AcceptedFitsUnlessShort(m, base, f, u, a);
      hide Picked, Gap, Accepted;
      if b != f { PickedIsFirst(m, n, base, b, f, u, a); }
    }
  }

  lemma AlignInRange(cbAlignment: nat)
    requires cbAlignment < TWO64
    ensures 0 < AlignUnits(cbAlignment) < WORD
  {
  }

  lemma PickedIsFirst(m: View, n: int, base: int, b: int, f: int, cb: int, align: int)
    requires Tiled(m, n) && align > 0 && Picked(m, base, b, cb, align) && Accepted(m, base, f, cb, align) && b != f
    ensures b in m && End(m, b) <= f
  {
  }

  lemma NothingFitsNoPlace(m: View, base: int, cb: nat, cbAlignment: nat)
    requires cb < TWO64 && (cbAlignment == 0 || IsPow2(cbAlignment))
    requires NothingFits(m, base, RoundedSize(cb) / 32, AlignUnits(cbAlignment))
    ensures NoPlace(m, base, cb, cbAlignment)
  {
    forall f, x ensures !PlaceIn(m, base, f, x, cb, cbAlignment) {
      if PlaceIn(m, base, f, x, cb, cbAlignment) { PlaceFits(m, base, f, x, cb, cbAlignment); }
    }
  }

  /** The lowest address with room for cb bytes on that alignment, over all free blocks. */
  ghost predicate IsLowestPlace(m: View, base: int, x: int, cb: nat, cbAlignment: nat) {
    && IsPlace(m, base, x, cb, cbAlignment)
    && forall y :: IsPlace(m, base, y, cb, cbAlignment) ==> x <= y
  }

  ghost predicate NoPlace(m: View, base: int, cb: nat, cbAlignment: nat) {
    forall x :: !IsPlace(m, base, x, cb, cbAlignment)
  }

  lemma Pow2Halves(a: int)
    requires IsPow2(a) && a != 1
    ensures a == 2 * (a / 2) && IsPow2(a / 2) && 1 <= a / 2 < a
  {
  }

  lemma {:induction false} Pow2Cases(a: int) returns (q: int)
    requires IsPow2(a)
    ensures a in {1, 2, 4, 8, 16} || (a == 32 * q && q >= 1)
    decreases a
  {
    q := 1;
    if a != 1 {
      Pow2Halves(a);
      hide IsPow2;
      var r := Pow2Cases(a / 2);
      q := if a / 2 == 16 then 1 else 2 * r;
    }
  }

  lemma Pow2Multiple(a: int)
    requires IsPow2(a)
    ensures a >= 32 ==> a % 32 == 0
    ensures a > 0 && (a < 32 ==> 32 % a == 0)
  {
    var q := Pow2Cases(a);
    hide IsPow2;
  }

  /** A granule address on a granule alignment is a byte address on the byte alignment. */
  lemma {:induction false} AlignedBytes(x: int, align: int)
    requires align > 0 && x % align == 0
    ensures (32 * x) % (32 * align) == 0
  {
    var q := x / align;
    assert x == align * q;
    assert 32 * x == (32 * align) * q;
    MultipleHasNoRemainder(q, 32 * align);
  }

  const TWO47: int := 0x8000_0000_0000

  /** RT_VALID_PTR in a 64-bit x86 kernel: not in the first or the last page, and bits 47 to 63
      all equal. */
  predicate ValidPtr(p: nat) {
    (p + 0x1000) % TWO64 >= 0x2000 && (p / TWO47 == 0x1ffff || p / TWO47 == 0)
  }

  /** The checks of RTHeapSimpleInit. */
  predicate InitAccepts(pvMemory: nat, cbMemory: nat) {
    cbMemory >= 4096 && ValidPtr(pvMemory) && (pvMemory + cbMemory - 1) % TWO64 > cbMemory
  }

  /** They accept exactly the ranges of at least a page that start in either half of the address
      space, clear of its first and last page, and do not wrap. */
  lemma InitAcceptsExactly(pvMemory: nat, cbMemory: nat)
    requires pvMemory < TWO64 && cbMemory < TWO64
    ensures InitAccepts(pvMemory, cbMemory) <==>
      && cbMemory >= 4096 && pvMemory + cbMemory <= TWO64
      && (0x1000 <= pvMemory < TWO47 || TWO64 - TWO47 <= pvMemory < TWO64 - 0x1000)
  {
  }

  /** Pointer addition as relocation does it, in words of 2^59 granules. */
  function AddWrapped(p: int, delta: int): int {
    (p + delta) % (TWO64 / 32)
  }

  lemma AddWrappedExact(p: int, d: int)
    requires 0 <= p < TWO64 / 32 && 0 <= p + d < TWO64 / 32
    ensures AddWrapped(p, d % (TWO64 / 32)) == p + d
  {
    WrapsOnce(d);
    WrapsOnce(p + d);
    WrapsOnce(p + d + TWO64 / 32);
  }

  lemma WrapsOnce(d: int)
    ensures -TWO64 / 32 <= d < 0 ==> d % (TWO64 / 32) == d + TWO64 / 32
    ensures 0 <= d < TWO64 / 32 ==> d % (TWO64 / 32) == d
    ensures TWO64 / 32 <= d < TWO64 / 16 ==> d % (TWO64 / 32) == d - TWO64 / 32
  {
  }
}
