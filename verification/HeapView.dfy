/** The address-ordered block map behind the simple heap (common/alloc/heapsimple.c), as a
    value: offsets and sizes are counted in granules of 32 bytes from the anchor, so a block
    header takes one granule and the anchor takes two. What allocation and freeing do to this
    map is defined and proved here; module SimpleHeap proves that the linked memory follows it.
 */
module HeapView {

  /** FREE blocks are on the free list. Live blocks were handed to a caller. Pad is the USED
      block that alignment donation leaves at the heap start, which no caller ever owns. */
  datatype Kind = Free | Live | Pad

  datatype Blk = Blk(cb: nat, kind: Kind)

  type View = map<int, Blk>

  // The first block header follows the 64-byte anchor.
  const FIRST: int := 2

  /** The fresh heap of n granules: one free block behind the anchor. */
  ghost function FreshMap(n: int): View {
    map[FIRST := Blk(if n >= 3 then n - 3 else 0, Free)]
  }

  ghost function End(m: View, b: int): int
    requires b in m
  {
    b + 1 + m[b].cb
  }

  ghost predicate IsFree(m: View, b: int) {
    b in m && m[b].kind.Free?
  }

  /** The block at b ends at the heap end or at the next block. */
  ghost predicate Joined(m: View, n: int, b: int)
    requires b in m
  {
    End(m, b) == n || End(m, b) in m
  }

  /** The blocks start after the anchor, follow each other without gap or overlap, and the
      last one ends where the heap ends. */
  ghost predicate Tiled(m: View, n: int) {
    && FIRST in m
    && (forall b :: b in m ==> FIRST <= b && End(m, b) <= n)
    && (forall b {:trigger Joined(m, n, b)} :: b in m ==> Joined(m, n, b))
    && (forall b, c :: b in m && c in m && b < c ==> End(m, b) <= c)
  }

  /** The blocks at b and right behind it are not both free. */
  ghost predicate Apart(m: View, b: int)
    requires b in m
  {
    IsFree(m, b) ==> !IsFree(m, End(m, b))
  }

  ghost predicate Coalesced(m: View) {
    forall b {:trigger Apart(m, b)} :: b in m ==> Apart(m, b)
  }

  /** Every free or caller-owned block has room for the free-list links; the padding block
      sits at the heap start and is never the whole heap. */
  ghost predicate Roomy(m: View) {
    && (forall b :: b in m ==> if m[b].kind.Pad? then b == FIRST else m[b].cb >= 1)
    && (FIRST in m && m[FIRST].kind.Pad? ==> End(m, FIRST) in m)
  }

  ghost predicate WellFormed(m: View, n: int) {
    Tiled(m, n) && Coalesced(m) && Roomy(m)
  }

  // ----- the free byte counter -----

  ghost function FreeAt(m: View, b: int): nat {
    if IsFree(m, b) then m[b].cb else 0
  }

  ghost function FreeSum(m: View, lo: int, hi: int): nat
    decreases hi - lo
  {
    if lo >= hi then 0 else FreeAt(m, lo) + FreeSum(m, lo + 1, hi)
  }

  lemma {:induction false} FreeSumDelta(m: View, m': View, x: int, y: int, lo: int, hi: int)
    requires x != y
    requires forall b :: b != x && b != y ==> FreeAt(m, b) == FreeAt(m', b)
    ensures FreeSum(m', lo, hi) - FreeSum(m, lo, hi)
         == (if lo <= x < hi then FreeAt(m', x) - FreeAt(m, x) else 0)
          + (if lo <= y < hi then FreeAt(m', y) - FreeAt(m, y) else 0)
    decreases hi - lo
  {
    if lo < hi {
      FreeSumDelta(m, m', x, y, lo + 1, hi);
    }
  }

  // ----- what allocation does -----

  // The heap words are 64 bits wide: 2^59 granules.
  const WORD: int := 0x0800_0000_0000_0000

  /** Unsigned subtraction as the machine does it. */
  function WrapSub(a: int, b: int): int {
    if a >= b then a - b else a - b + WORD
  }

  /** Granules to skip so that the payload of a block at offset b lands on the alignment. */
  function Gap(base: int, b: int, align: int): int
    requires align > 0
  {
    var off := (base + b + 1) % align;
    if off == 0 then 0 else align - off
  }

  /** The test the search makes on a free block, with its unsigned subtraction. */
  predicate AcceptedSize(free: int, gap: int, cb: int) {
    free >= cb && (gap == 0 || WrapSub(free, gap) >= cb)
  }

  ghost predicate Accepted(m: View, base: int, b: int, cb: int, align: int)
    requires align > 0
  {
    IsFree(m, b) && AcceptedSize(m[b].cb, Gap(base, b, align), cb)
  }

  /** What the test is for: gap and payload both fit. */
  ghost predicate Fits(m: View, base: int, b: int, cb: int, align: int)
    requires align > 0
  {
    IsFree(m, b) && m[b].cb >= Gap(base, b, align) + cb
  }

  ghost predicate NothingFits(m: View, base: int, cb: int, align: int)
    requires align > 0
  {
    forall b :: !Fits(m, base, b, cb, align)
  }

  /** b is the block the search from the low end stops at. */
  ghost predicate Picked(m: View, base: int, b: int, cb: int, align: int)
    requires align > 0
  {
    && Accepted(m, base, b, cb, align)
    && forall c :: c in m && c < b ==> !Accepted(m, base, c, cb, align)
  }

  /** The search stops at a block that cannot hold the request: it is smaller than its own
      alignment gap, or the size asked for was so large that rounding made it 0. */
  ghost predicate Misfit(m: View, base: int, cb: int, align: int)
    requires align > 0
  {
    exists b :: Picked(m, base, b, cb, align) && (cb == 0 || m[b].cb < Gap(base, b, align))
  }

  lemma GapBounds(base: int, b: int, align: int)
    requires align > 0
    ensures 0 <= Gap(base, b, align) < align
    ensures (base + b + 1 + Gap(base, b, align)) % align == 0
  {
    var a := base + b + 1;
    var q := a / align;
    var off := a % align;
    if off != 0 {
      assert a + (align - off) == align * (q + 1);
      MultipleHasNoRemainder(q + 1, align);
    }
  }

  lemma MultipleHasNoRemainder(q: int, d: int)
    requires d > 0
    ensures (d * q) % d == 0
  {
    var p := d * q;
    assert d * (q - p / d) == p % d;
    MultipleGrows(q - p / d, d);
  }

  lemma MultipleGrows(k: int, d: int)
    requires d > 0
    ensures k >= 1 ==> d * k >= d
    ensures k <= -1 ==> d * k <= -d
  {
  }

  /** The coded test and the intended one differ exactly on blocks smaller than their gap. */
  lemma AcceptedFitsUnlessShort(m: View, base: int, b: int, cb: int, align: int)
    requires cb >= 0 && 0 < align < WORD && IsFree(m, b)
    ensures Fits(m, base, b, cb, align) <==>
      Accepted(m, base, b, cb, align) && m[b].cb >= Gap(base, b, align)
    ensures Accepted(m, base, b, cb, align) && !Fits(m, base, b, cb, align) <==>
      cb <= m[b].cb < Gap(base, b, align)
  {
    GapBounds(base, b, align);
  }

  /** Alignment donation: the block at b moves up by gap granules, which go to the block d in
      front of it or, when there is none, become padding. */
  ghost function Donated(m: View, d: int, b: int, gap: int): View
  {
    if !(b in m && d in m && 0 < gap <= m[b].cb) then m
    else if b == FIRST then
      m[b := Blk(gap - 1, Pad)][b + gap := Blk(m[b].cb - gap, Free)]
    else
      (m - {b})[d := m[d].(cb := m[d].cb + gap)][b + gap := Blk(m[b].cb - gap, Free)]
  }

  /** The low cb granules of the block become live, the rest a free block of its own. */
  ghost function Carved(m: View, b: int, cb: nat): View {
    if !(b in m && m[b].cb >= cb + 2) then m
    else m[b := Blk(cb, Live)][b + 1 + cb := Blk(m[b].cb - cb - 1, Free)]
  }

  ghost function Taken(m: View, b: int): View {
    if b in m then m[b := m[b].(kind := Live)] else m
  }

  /** The block in front of b. */
  ghost predicate Before(m: View, d: int, b: int) {
    d in m && End(m, d) == b
  }

  lemma DonatedKeeps(m: View, n: int, d: int, b: int, gap: int)
    requires WellFormed(m, n) && IsFree(m, b) && 0 < gap < m[b].cb
    requires if b == FIRST then d == FIRST else Before(m, d, b)
    ensures WellFormed(Donated(m, d, b, gap), n)
  {
    hide WellFormed, Donated;
    if b == FIRST {
      DonatedToPad(m, n, gap);
    } else {
      DonatedToNeighbour(m, n, d, b, gap);
    }
  }

  lemma DonatedToPad(m: View, n: int, gap: int)
    requires WellFormed(m, n) && IsFree(m, FIRST) && 0 < gap < m[FIRST].cb
    ensures WellFormed(Donated(m, FIRST, FIRST, gap), n)
  {
    var m' := Donated(m, FIRST, FIRST, gap);
    CarvedTiled(m, m', n, FIRST, FIRST + gap);
    assert Apart(m, FIRST);
    hide Joined;
    forall c | c in m' ensures Apart(m', c) {
      if c in m && c != FIRST { assert Apart(m, c); }
    }
  }

  lemma DonatedToNeighbour(m: View, n: int, d: int, b: int, gap: int)
    requires WellFormed(m, n) && IsFree(m, b) && 0 < gap < m[b].cb
    requires b != FIRST && Before(m, d, b)
    ensures WellFormed(Donated(m, d, b, gap), n)
  {
    DonatedTiled(m, Donated(m, d, b, gap), n, d, b, gap);
    DonatedApart(m, n, d, b, gap);
    hide Joined, Coalesced;
    if FIRST in m && m[FIRST].kind.Pad? && d != FIRST {
      assert End(m, FIRST) <= d;
    }
  }

  lemma DonatedApart(m: View, n: int, d: int, b: int, gap: int)
    requires WellFormed(m, n) && IsFree(m, b) && 0 < gap < m[b].cb
    requires b != FIRST && Before(m, d, b)
    ensures Coalesced(Donated(m, d, b, gap))
  {
    var m' := Donated(m, d, b, gap);
    assert Apart(m, b) && Apart(m, d);
    forall c | c in m' ensures Apart(m', c) {
      if c in m && c != d {
        assert Apart(m, c);
        assert End(m, c) != b;
      }
    }
  }

  lemma DonatedTiled(m: View, m': View, n: int, d: int, b: int, gap: int)
    requires Tiled(m, n) && b in m && 0 < gap < m[b].cb
    requires b != FIRST && Before(m, d, b)
    requires m'.Keys == m.Keys - {b} + {b + gap}
    requires m'[d].cb == m[d].cb + gap && m'[b + gap].cb == m[b].cb - gap
    requires forall c :: c in m && c != b && c != d ==> m'[c] == m[c]
    ensures Tiled(m', n)
  {
    assert Joined(m, n, b);
    assert forall c :: c in m ==> c == d || End(m, c) != b;
    forall c | c in m' ensures Joined(m', n, c) && FIRST <= c && End(m', c) <= n {
      if c in m && c != d { assert Joined(m, n, c); }
    }
    DonatedOrdered(m, m', n, d, b, gap);
    hide Joined;
  }

  lemma DonatedOrdered(m: View, m': View, n: int, d: int, b: int, gap: int)
    requires Tiled(m, n) && b in m && 0 < gap < m[b].cb && Before(m, d, b)
    requires m'.Keys == m.Keys - {b} + {b + gap}
    requires m'[d].cb == m[d].cb + gap && m'[b + gap].cb == m[b].cb - gap
    requires forall c :: c in m && c != b && c != d ==> m'[c] == m[c]
    ensures forall c, e :: c in m' && e in m' && c < e ==> End(m', c) <= e
  {
    hide Joined;
    forall c, e | c in m' && e in m' && c < e ensures End(m', c) <= e {
      if c == b + gap {
        assert End(m, b) <= e;
      } else if e == b + gap {
        assert c <= d;
      } else if c == d {
        assert End(m, b) <= e;
      }
    }
  }

  lemma DonatedSum(m: View, n: int, d: int, b: int, gap: int)
    requires WellFormed(m, n) && IsFree(m, b) && 0 < gap < m[b].cb
    requires if b == FIRST then d == FIRST else Before(m, d, b)
    ensures FreeSum(Donated(m, d, b, gap), FIRST, n) == FreeSum(m, FIRST, n) - gap
  {
    assert b != FIRST ==> Apart(m, d);
    FreeSumDelta(m, Donated(m, d, b, gap), b, b + gap, FIRST, n);
  }

  lemma CarvedKeeps(m: View, n: int, b: int, cb: nat)
    requires WellFormed(m, n) && IsFree(m, b) && cb >= 1 && m[b].cb >= cb + 2
    ensures WellFormed(Carved(m, b, cb), n)
  {
    var m' := Carved(m, b, cb);
    CarvedTiled(m, m', n, b, b + 1 + cb);
    assert Apart(m, b);
    forall c | c in m' ensures Apart(m', c) {
      if c in m && c != b { assert Apart(m, c); }
    }
  }

  lemma CarvedTiled(m: View, m': View, n: int, b: int, g: int)
    requires Tiled(m, n) && b in m && b < g < End(m, b)
    requires m'.Keys == m.Keys + {g} && End(m', b) == g && End(m', g) == End(m, b)
    requires forall c :: c in m && c != b ==> m'[c] == m[c]
    ensures Tiled(m', n)
  {
    assert Joined(m, n, b);
    CarvedOrdered(m, m', n, b, g);
    forall c | c in m' ensures Joined(m', n, c) && FIRST <= c && End(m', c) <= n {
      if c in m { assert Joined(m, n, c); }
    }
    hide Joined;
  }

  lemma CarvedOrdered(m: View, m': View, n: int, b: int, g: int)
    requires Tiled(m, n) && b in m && b < g < End(m, b)
    requires m'.Keys == m.Keys + {g} && End(m', b) == g && End(m', g) == End(m, b)
    requires forall c :: c in m && c != b ==> m'[c] == m[c]
    ensures forall c, e :: c in m' && e in m' && c < e ==> End(m', c) <= e
  {
    hide Joined;
    forall c, e | c in m' && e in m' && c < e ensures End(m', c) <= e {
      if c == g || c == b {
        assert e != g ==> b < e && End(m, b) <= e;
      } else if e == g {
        assert c < b;
      }
    }
  }

  lemma CarvedSum(m: View, n: int, b: int, cb: nat)
    requires WellFormed(m, n) && IsFree(m, b) && cb >= 1 && m[b].cb >= cb + 2
    ensures FreeSum(Carved(m, b, cb), FIRST, n) == FreeSum(m, FIRST, n) - 1 - cb
  {
    FreeSumDelta(m, Carved(m, b, cb), b, b + 1 + cb, FIRST, n);
  }

  lemma TakenKeeps(m: View, n: int, b: int)
    requires WellFormed(m, n) && IsFree(m, b)
    ensures WellFormed(Taken(m, b), n)
    ensures FreeSum(Taken(m, b), FIRST, n) == FreeSum(m, FIRST, n) - m[b].cb
  {
    FreeSumDelta(m, Taken(m, b), b, b + 1, FIRST, n);
    hide FreeSum;
    TakenShape(m, n, b);
    hide WellFormed;
  }

  lemma TakenShape(m: View, n: int, b: int)
    requires WellFormed(m, n) && IsFree(m, b)
    ensures WellFormed(Taken(m, b), n)
  {
    var m' := Taken(m, b);
    forall c | c in m' ensures Joined(m', n, c) && Apart(m', c) {
      assert Joined(m, n, c) && Apart(m, c);
    }
  }

  // ----- what freeing does -----

  ghost predicate HasFreeLeft(m: View, p: int) {
    exists d :: IsFree(m, d) && Before(m, d, p)
  }

  ghost function LeftEdge(m: View, p: int): int {
    if HasFreeLeft(m, p) then var d :| IsFree(m, d) && Before(m, d, p); d else p
  }

  ghost function RightEdge(m: View, p: int): int
    requires p in m
  {
    if IsFree(m, End(m, p)) then End(m, End(m, p)) else End(m, p)
  }

  /** The blocks from lo up to hi replaced by one free block. */
  ghost function Merged(m: View, lo: int, hi: int): View {
    if lo >= hi then m
    else (map c | c in m && (c < lo || hi <= c) :: m[c])[lo := Blk(hi - lo - 1, Free)]
  }

  /** The freed block merged with its free neighbours. */
  ghost function Released(m: View, p: int): View
    requires p in m
  {
    Merged(m, LeftEdge(m, p), RightEdge(m, p))
  }

  lemma MergedTiled(m: View, n: int, lo: int, hi: int)
    requires Tiled(m, n) && lo in m && lo < hi && (hi == n || hi in m)
    ensures Tiled(Merged(m, lo, hi), n)
  {
    var m' := Merged(m, lo, hi);
    forall c | c in m' ensures Joined(m', n, c) && FIRST <= c && End(m', c) <= n {
      if c != lo { assert Joined(m, n, c); }
    }
    MergedOrdered(m, n, lo, hi);
    hide Joined, Merged;
  }

  lemma MergedOrdered(m: View, n: int, lo: int, hi: int)
    requires Tiled(m, n) && lo in m && lo < hi && (hi == n || hi in m)
    ensures var m' := Merged(m, lo, hi);
      forall c, e :: c in m' && e in m' && c < e ==> End(m', c) <= e
  {
    hide Joined;
  }

  lemma ReleasedEdges(m: View, n: int, p: int)
    requires WellFormed(m, n) && p in m && m[p].kind.Live?
    ensures LeftEdge(m, p) in m && LeftEdge(m, p) <= p < RightEdge(m, p)
    ensures LeftEdge(m, p) != p ==> IsFree(m, LeftEdge(m, p)) && Before(m, LeftEdge(m, p), p)
    ensures RightEdge(m, p) == n || RightEdge(m, p) in m
    ensures !IsFree(m, RightEdge(m, p))
  {
    assert Joined(m, n, p);
    if IsFree(m, End(m, p)) { assert Joined(m, n, End(m, p)) && Apart(m, End(m, p)); }
  }

  /** In a well formed map the left edge is any free block ending at p. */
  lemma LeftEdgeIs(m: View, n: int, d: int, p: int)
    requires Tiled(m, n) && p in m && IsFree(m, d) && Before(m, d, p)
    ensures LeftEdge(m, p) == d
  {
  }

  lemma ReleasedKeeps(m: View, n: int, p: int)
    requires WellFormed(m, n) && p in m && m[p].kind.Live?
    ensures LeftEdge(m, p) <= p
    ensures WellFormed(Released(m, p), n)
  {
    var lo, hi := LeftEdge(m, p), RightEdge(m, p);
    ReleasedEdges(m, n, p);
    MergedTiled(m, n, lo, hi);
    MergedApart(m, n, lo, p, hi);
    var m' := Merged(m, lo, hi);
    if FIRST in m' && m'[FIRST].kind.Pad? {
      assert FIRST in m && End(m, FIRST) in m && End(m, FIRST) <= lo;
    }
  }

  lemma MergedApart(m: View, n: int, lo: int, p: int, hi: int)
    requires Tiled(m, n) && Coalesced(m) && p in m && lo in m && lo <= p < hi
    requires lo == LeftEdge(m, p) && (lo != p ==> IsFree(m, lo))
    requires !IsFree(m, hi) && (hi == n || hi in m)
    ensures Coalesced(Merged(m, lo, hi))
  {
    var m' := Merged(m, lo, hi);
    forall c | c in m' ensures Apart(m', c) {
      if c != lo {
        assert Apart(m, c);
        if End(m, c) == lo && lo == p { assert Before(m, c, p); }
      }
    }
  }

  lemma ReleasedSum(m: View, n: int, p: int)
    requires WellFormed(m, n) && p in m && m[p].kind.Live?
    ensures LeftEdge(m, p) <= p < RightEdge(m, p)
    ensures FreeSum(Released(m, p), FIRST, n)
         == FreeSum(m, FIRST, n) + (RightEdge(m, p) - LeftEdge(m, p) - 1)
          - FreeAt(m, LeftEdge(m, p)) - FreeAt(m, End(m, p))
  {
    ReleasedEdges(m, n, p);
    assert Joined(m, n, p);
    hide FreeSum, LeftEdge, HasFreeLeft;
    FreeSumDelta(m, Released(m, p), LeftEdge(m, p), End(m, p), FIRST, n);
  }
}
