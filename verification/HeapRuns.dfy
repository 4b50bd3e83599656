/** Whole runs of the simple heap (common/alloc/heapsimple.c) on its block map: what every
    sequence of allocations and frees keeps, and what freeing everything gives back. */
module HeapRuns {
  import opened HeapView
  import opened HeapAlloc

  datatype Op = Allocate(cb: nat, align: nat) | Release(p: int)

  /** The block in front of b, or b itself when it is the first. */
  ghost function Front(m: View, b: int): int {
    if b != FIRST && (exists d :: Before(m, d, b)) then var d :| Before(m, d, b); d else b
  }

  /** One call: an allocation that finds a fitting block, or the free of a live block. A call
      that finds nothing, or frees what is not live, changes nothing. Allocations whose search
      wraps (see WrapExactly) are not calls of a run. */
  ghost function Apply(m: View, at: int, op: Op): View {
    match op
    case Allocate(cb, align) =>
      if cb >= 1 && align > 0 && (exists b :: Picked(m, at, b, cb, align) && Fits(m, at, b, cb, align)) then
        var b :| Picked(m, at, b, cb, align) && Fits(m, at, b, cb, align);
        Allocated(m, at, Front(m, b), b, cb, align)
      else m
    case Release(p) =>
      if p in m && m[p].kind.Live? then Released(m, p) else m
  }

  ghost function Run(m: View, at: int, ops: seq<Op>): View
    decreases |ops|
  {
    if ops == [] then m else Run(Apply(m, at, ops[0]), at, ops[1..])
  }

  ghost function LiveSet(m: View): set<int> {
    set b | b in m && m[b].kind.Live?
  }

  lemma FrontIsBefore(m: View, n: int, b: int)
    requires Tiled(m, n) && b in m
    ensures if b == FIRST then Front(m, b) == FIRST else Before(m, Front(m, b), b)
  {
    if b != FIRST { HasFront(m, n, FIRST, b); }
  }

  /** Walking up from block c one arrives at the block in front of b. */
  lemma {:induction false} HasFront(m: View, n: int, c: int, b: int)
    requires Tiled(m, n) && c in m && b in m && c < b
    ensures exists d :: Before(m, d, b)
    decreases b - c
  {
    assert Joined(m, n, c);
    if End(m, c) == b {
      assert Before(m, c, b);
    } else {
      HasFront(m, n, End(m, c), b);
    }
  }

  lemma AllocatedKeeps(m: View, n: int, at: int, d: int, b: int, cb: nat, align: int)
    requires WellFormed(m, n) && align > 0 && cb >= 1 && Fits(m, at, b, cb, align)
    requires if b == FIRST then d == FIRST else Before(m, d, b)
    ensures WellFormed(Allocated(m, at, d, b, cb, align), n)
  {
    hide WellFormed, Gap, Donated, Carved, Taken;
    GapBounds(at, b, align);
    var gap := Gap(at, b, align);
    var m1 := if gap == 0 then m else Donated(m, d, b, gap);
    if gap != 0 {
      DonatedKeeps(m, n, d, b, gap);
      DonatedLive(m, n, d, b, gap);
    }
    if m1[b + gap].cb >= cb + 2 {
      CarvedKeeps(m1, n, b + gap, cb);
    } else {
      TakenKeeps(m1, n, b + gap);
    }
  }

  lemma ApplyKeeps(m: View, n: int, at: int, op: Op)
    requires WellFormed(m, n)
    ensures WellFormed(Apply(m, at, op), n)
  {
    hide WellFormed, Allocated, Released, Picked, Fits, Front;
    match op
    case Allocate(cb, align) =>
      if cb >= 1 && align > 0 && exists b :: Picked(m, at, b, cb, align) && Fits(m, at, b, cb, align) {
        var b :| Picked(m, at, b, cb, align) && Fits(m, at, b, cb, align)
          && Apply(m, at, op) == Allocated(m, at, Front(m, b), b, cb, align);
        FitsIsBlock(m, at, b, cb, align);
        TiledOf(m, n);
        FrontIsBefore(m, n, b);
        AllocatedKeeps(m, n, at, Front(m, b), b, cb, align);
      }
    case Release(p) =>
      if p in m && m[p].kind.Live? { ReleasedKeeps(m, n, p); }
  }

  lemma FitsIsBlock(m: View, at: int, b: int, cb: int, align: int)
    requires align > 0 && Fits(m, at, b, cb, align)
    ensures IsFree(m, b)
  {
  }

  lemma TiledOf(m: View, n: int)
    requires WellFormed(m, n)
    ensures Tiled(m, n)
  {
  }

  /** What the heap does on a successful allocation is the step of the run. */
  lemma AllocationIsApply(m: View, n: int, at: int, d: int, b: int, cb: nat, align: nat)
    requires WellFormed(m, n) && 0 < align < WORD && cb >= 1
    requires Picked(m, at, b, cb, align) && Fits(m, at, b, cb, align)
    requires if b == FIRST then d == FIRST else Before(m, d, b)
    ensures Apply(m, at, Allocate(cb, align)) == Allocated(m, at, d, b, cb, align)
  {
  }

  lemma PickedFits(m: View, at: int, b: int, cb: nat, align: nat)
    requires 0 < align < WORD && cb >= 1 && Picked(m, at, b, cb, align) && !Misfit(m, at, cb, align)
    ensures Fits(m, at, b, cb, align)
  {
    AcceptedFitsUnlessShort(m, at, b, cb, align);
  }

  lemma AllocatedIsApply(m: View, m': View, n: int, at: int, b: int, cb: nat, align: nat)
    requires WellFormed(m, n) && 0 < align < WORD && cb >= 1 && Picked(m, at, b, cb, align) && !Misfit(m, at, cb, align)
    requires IsAllocated(m, m', at, b, cb, align)
    ensures m' == Apply(m, at, Allocate(cb, align))
  {
    hide WellFormed, Misfit, Picked, Fits, Allocated, Apply;
    var d :| (if b == FIRST then d == FIRST else Before(m, d, b)) && m' == Allocated(m, at, d, b, cb, align);
    PickedFits(m, at, b, cb, align);
    AllocationIsApply(m, n, at, d, b, cb, align);
  }

  lemma NothingToApply(m: View, at: int, cb: nat, align: nat)
    requires 0 < align && NothingFits(m, at, cb, align)
    ensures Apply(m, at, Allocate(cb, align)) == m
  {
  }

  /** Every run keeps the block map well formed. */
  lemma {:induction false} RunKeeps(m: View, n: int, at: int, ops: seq<Op>)
    requires WellFormed(m, n)
    ensures WellFormed(Run(m, at, ops), n)
    decreases |ops|
  {
    if ops != [] {
      ApplyKeeps(m, n, at, ops[0]);
      RunKeeps(Apply(m, at, ops[0]), n, at, ops[1..]);
    }
  }

  // ----- conservation -----

  /** Header and payload granules of all blocks from lo on. */
  ghost function Granules(m: View, lo: int, hi: int): nat
    decreases hi - lo
  {
    if lo >= hi then 0 else (if lo in m then 1 + m[lo].cb else 0) + Granules(m, lo + 1, hi)
  }

  lemma {:induction false} SkipGap(m: View, lo: int, mid: int, hi: int)
    requires lo <= mid <= hi && forall b :: lo <= b < mid ==> b !in m
    ensures Granules(m, lo, hi) == Granules(m, mid, hi)
    decreases mid - lo
  {
    if lo < mid { SkipGap(m, lo + 1, mid, hi); }
  }

  lemma {:induction false} GranulesFrom(m: View, n: int, b: int)
    requires Tiled(m, n) && b in m
    ensures Granules(m, b, n) == n - b
    decreases n - b
  {
    assert Joined(m, n, b);
    SkipGap(m, b + 1, End(m, b), n);
    if End(m, b) != n { GranulesFrom(m, n, End(m, b)); }
  }

  /** After any run the anchor, all headers and all payloads add up to the heap size. */
  lemma Conservation(n: int, at: int, m: View, ops: seq<Op>)
    requires WellFormed(m, n)
    ensures 64 + 32 * Granules(Run(m, at, ops), FIRST, n) == 32 * n
  {
    RunKeeps(m, n, at, ops);
    GranulesFrom(Run(m, at, ops), n, FIRST);
  }

  // ----- freeing everything -----

  lemma ReleasedLiveSet(m: View, n: int, p: int)
    requires WellFormed(m, n) && p in m && m[p].kind.Live?
    ensures LiveSet(Released(m, p)) == LiveSet(m) - {p}
    ensures FIRST in m && m[FIRST].kind.Pad? <==> FIRST in Released(m, p) && Released(m, p)[FIRST].kind.Pad?
  {
  }

  ghost function Frees(ps: seq<int>): seq<Op> {
    seq(|ps|, i requires 0 <= i < |ps| => Release(ps[i]))
  }

  lemma {:induction false} FreesLeave(m: View, n: int, at: int, ps: seq<int>)
    requires WellFormed(m, n)
    ensures var m' := Run(m, at, Frees(ps));
      && WellFormed(m', n)
      && LiveSet(m') == LiveSet(m) - (set p | p in ps)
      && (m[FIRST].kind.Pad? <==> m'[FIRST].kind.Pad?)
    decreases |ps|
  {
    if ps != [] {
      var m1 := Apply(m, at, Release(ps[0]));
      assert Frees(ps)[0] == Release(ps[0]) && Frees(ps)[1..] == Frees(ps[1..]);
      ApplyKeeps(m, n, at, Release(ps[0]));
      if ps[0] in m && m[ps[0]].kind.Live? { ReleasedLiveSet(m, n, ps[0]); }
      FreesLeave(m1, n, at, ps[1..]);
      assert (set p | p in ps) == {ps[0]} + (set p | p in ps[1..]);
    }
  }

  /** With nothing live, all there is is one free block, behind the padding if there is any. */
  lemma NothingLive(m: View, n: int)
    requires WellFormed(m, n) && LiveSet(m) == {}
    ensures if m[FIRST].kind.Pad?
      then m == map[FIRST := m[FIRST], End(m, FIRST) := Blk(n - End(m, FIRST) - 1, Free)]
      else m == map[FIRST := Blk(n - FIRST - 1, Free)]
  {
    forall b | b in m ensures m[b].kind.Free? || (b == FIRST && m[b].kind.Pad?) {
      assert b !in LiveSet(m);
    }
    var f := if m[FIRST].kind.Pad? then End(m, FIRST) else FIRST;
    assert Joined(m, n, f) && Apart(m, f);
    assert End(m, f) == n;
    assert forall b :: b in m ==> b == FIRST || b == f;
    assert m.Keys == {FIRST, f};
  }

  /** Freeing all live blocks, in any order and whatever else is freed along the way, gives the
      single free block back; padding at the heap start is the only thing that can remain. */
  lemma FreeingAll(m: View, n: int, at: int, ps: seq<int>)
    requires WellFormed(m, n) && forall b :: b in LiveSet(m) ==> b in ps
    ensures var m' := Run(m, at, Frees(ps));
      if m[FIRST].kind.Pad?
      then FIRST in m' && m'[FIRST].kind.Pad? && End(m', FIRST) < n
        && m' == map[FIRST := m'[FIRST], End(m', FIRST) := Blk(n - End(m', FIRST) - 1, Free)]
      else m' == map[FIRST := Blk(n - FIRST - 1, Free)]
  {
    FreesLeave(m, n, at, ps);
    forall b ensures b !in LiveSet(Run(m, at, Frees(ps))) {
      assert b in LiveSet(m) ==> b in ps;
    }
    NothingLive(Run(m, at, Frees(ps)), n);
  }

  /** Allocations with the default alignment never leave padding. */
  ghost predicate DefaultAligned(ops: seq<Op>) {
    forall i :: 0 <= i < |ops| && ops[i].Allocate? ==> ops[i].align == 1
  }

  lemma NoPadStep(m: View, n: int, at: int, op: Op)
    requires WellFormed(m, n) && !m[FIRST].kind.Pad? && (op.Allocate? ==> op.align == 1)
    ensures FIRST in Apply(m, at, op) && !Apply(m, at, op)[FIRST].kind.Pad?
  {
  }

  lemma {:induction false} NoPad(m: View, n: int, at: int, ops: seq<Op>)
    requires WellFormed(m, n) && !m[FIRST].kind.Pad? && DefaultAligned(ops)
    ensures WellFormed(Run(m, at, ops), n) && !Run(m, at, ops)[FIRST].kind.Pad?
    decreases |ops|
  {
    if ops != [] {
      NoPadStep(m, n, at, ops[0]);
      ApplyKeeps(m, n, at, ops[0]);
      NoPad(Apply(m, at, ops[0]), n, at, ops[1..]);
    }
  }

  /** A fresh heap, any run of default-aligned allocations and frees, then all live blocks freed
      in any order: the heap is fresh again. */
  lemma FullCircle(n: int, at: int, ops: seq<Op>, ps: seq<int>)
    requires n >= 4 && DefaultAligned(ops)
    requires forall b :: b in LiveSet(Run(FreshMap(n), at, ops)) ==> b in ps
    ensures var fresh0 := FreshMap(n);
      Run(Run(fresh0, at, ops), at, Frees(ps)) == fresh0
  {
    var fresh0 := FreshMap(n);
    assert Joined(fresh0, n, FIRST) && Apart(fresh0, FIRST);
    NoPad(fresh0, n, at, ops);
    FreeingAll(Run(fresh0, at, ops), n, at, ps);
  }

  // ----- the unsigned comparison in the search -----

  /** Asking for at least the alignment minus one header keeps the search from wrapping. */
  lemma LargeRequestsNeverWrap(m: View, at: int, cb: nat, align: nat)
    requires 0 < align < WORD && cb >= 1 && cb >= align - 1
    ensures !Misfit(m, at, cb, align)
  {
  }

  lemma MisfitIsSmall(m: View, at: int, cb: nat, align: nat)
    requires 0 < align < WORD && Misfit(m, at, cb, align)
    ensures cb == 0 || cb < align - 1
  {
  }

  /** Two blocks allocated from a fresh heap and the first one freed: a free block of cb granules
      below a large one. */
  function HoleOps(cb: nat): seq<Op> {
    [Allocate(cb, 1), Allocate(1, 1), Release(FIRST)]
  }

  ghost function HoleMap(n: int, cb: nat): View {
    map[FIRST := Blk(cb, Free), FIRST + 1 + cb := Blk(1, Live),
        FIRST + 3 + cb := Blk(if n >= cb + 6 then n - cb - 6 else 0, Free)]
  }

  lemma HoleRun(n: int, at: int, cb: nat)
    requires cb >= 1 && n >= cb + 8
    ensures Run(FreshMap(n), at, HoleOps(cb)) == HoleMap(n, cb)
  {
    var ops := HoleOps(cb);
    var m1 := map[FIRST := Blk(cb, Live), FIRST + 1 + cb := Blk(n - cb - 4, Free)];
    var m2 := map[FIRST := Blk(cb, Live), FIRST + 1 + cb := Blk(1, Live), FIRST + 3 + cb := Blk(n - cb - 6, Free)];
    CarveStep(FreshMap(n), at, FIRST, cb);
    assert Apply(FreshMap(n), at, ops[0]) == m1;
    CarveStep(m1, at, FIRST + 1 + cb, 1);
    assert Apply(m1, at, ops[1]) == m2;
    assert Apply(m2, at, ops[2]) == HoleMap(n, cb) by { HoleRelease(n, cb); }
    hide Apply, HoleMap;
    ThreeSteps(FreshMap(n), at, ops[0], ops[1], ops[2]);
  }

  lemma ThreeSteps(m: View, at: int, a: Op, b: Op, c: Op)
    ensures Run(m, at, [a, b, c]) == Apply(Apply(Apply(m, at, a), at, b), at, c)
  {
    hide Apply;
    assert [a, b, c][1..] == [b, c] && [b, c][1..] == [c] && [c][1..] == [];
    var m1 := Apply(m, at, a);
    var m2 := Apply(m1, at, b);
    assert Run(m, at, [a, b, c]) == Run(m1, at, [b, c]) == Run(m2, at, [c]) == Run(Apply(m2, at, c), at, []);
  }

  lemma HoleRelease(n: int, cb: nat)
    requires cb >= 1 && n >= cb + 8
    ensures var m2 := map[FIRST := Blk(cb, Live), FIRST + 1 + cb := Blk(1, Live),
            FIRST + 3 + cb := Blk(n - cb - 6, Free)];
      Released(m2, FIRST) == HoleMap(n, cb)
  {
    var m2 := map[FIRST := Blk(cb, Live), FIRST + 1 + cb := Blk(1, Live), FIRST + 3 + cb := Blk(n - cb - 6, Free)];
    assert !HasFreeLeft(m2, FIRST);
    assert LeftEdge(m2, FIRST) == FIRST && RightEdge(m2, FIRST) == FIRST + 1 + cb;
    assert Merged(m2, FIRST, FIRST + 1 + cb) == HoleMap(n, cb);
  }

  /** An allocation with the default alignment from the only free block. */
  lemma CarveStep(m: View, at: int, b: int, cb: nat)
    requires cb >= 1 && IsFree(m, b) && m[b].cb >= cb + 2 && forall c :: IsFree(m, c) ==> c == b
    ensures Apply(m, at, Allocate(cb, 1)) == Carved(m, b, cb)
  {
    assert Gap(at, b, 1) == 0;
    assert Picked(m, at, b, cb, 1) && Fits(m, at, b, cb, 1);
    assert forall c :: Picked(m, at, c, cb, 1) ==> c == b;
  }

  /** The search does wrap on a heap of any size: after that run, with one-granule blocks, the
      free block is picked for one granule aligned to four, although the aligned payload lies
      beyond it and the large block fits. */
  lemma WrapExample(n: int, at: int)
    requires n >= 127 && at >= 128 && at % 4 == 2
    ensures var m := Run(FreshMap(n), at, HoleOps(1));
      && Misfit(m, at, 1, 4)
      && Picked(m, at, FIRST, 1, 4) && FIRST + Gap(at, FIRST, 4) + 1 > End(m, FIRST)
      && Fits(m, at, FIRST + 4, 1, 4)
  {
    HoleRun(n, at, 1);
    var m := HoleMap(n, 1);
    assert Gap(at, FIRST, 4) == 3 && Gap(at, FIRST + 4, 4) == 3;
    assert Picked(m, at, FIRST, 1, 4);
  }

  /** A heap of a page or more, past the first page and below hi. */
  ghost predicate InRange(n: int, at: int, hi: int) {
    n >= 127 && at >= 128 && at + n <= hi
  }

  /** No heap makes the search settle for a block that cannot hold the request, whatever calls
      were made before, if and only if the request is at least the alignment minus one header.
      The heaps are those below address hi; for alignments up to 2^39 bytes that can be 2^47. */
  lemma NeverMisfitsExactly(cb: nat, align: nat, hi: int)
    requires 0 < align < WORD && hi >= 131 * align + 400
    ensures (forall n, at, ops :: InRange(n, at, hi) ==> !Misfit(Run(FreshMap(n), at, ops), at, cb, align))
      <==> cb >= 1 && cb >= align - 1
  {
    hide Run, Misfit, HoleOps;
    if cb >= 1 && cb >= align - 1 {
      forall n, at, ops | InRange(n, at, hi)
        ensures !Misfit(Run(FreshMap(n), at, ops), at, cb, align)
      {
        LargeRequestsNeverWrap(Run(FreshMap(n), at, ops), at, cb, align);
      }
    } else {
      var n, at, ops := cb + 200, 130 * align - 2, if cb == 0 then [] else HoleOps(cb);
      SmallRequestMisfits(cb, align);
      assert InRange(n, at, hi) && Misfit(Run(FreshMap(n), at, ops), at, cb, align);
      assert exists n, at, ops :: InRange(n, at, hi) && Misfit(Run(FreshMap(n), at, ops), at, cb, align);
    }
  }

  lemma SmallRequestMisfits(cb: nat, align: nat)
    requires 0 < align < WORD && (cb == 0 || cb < align - 1)
    ensures var n, at := cb + 200, 130 * align - 2;
      Misfit(Run(FreshMap(n), at, if cb == 0 then [] else HoleOps(cb)), at, cb, align)
  {
    var n, at := cb + 200, 130 * align - 2;
    GapBounds(at, FIRST, align);
    if cb == 0 {
      assert Picked(FreshMap(n), at, FIRST, 0, align);
    } else {
      HoleRun(n, at, cb);
      OneOver(align);
      assert Gap(at, FIRST, align) == align - 1;
      assert Picked(HoleMap(n, cb), at, FIRST, cb, align);
    }
  }

  lemma OneOver(align: nat)
    requires align >= 2
    ensures (130 * align + 1) % align == 1
  {
    var q := (130 * align + 1) / align;
    MultipleGrows(130 - q, align);
    assert 130 * align + 1 == align * q + (130 * align + 1) % align;
    assert align * (130 - q) == (130 * align + 1) % align - 1;
  }

  /** The payload the search settles for lies inside the picked block if and only if the block
      is not smaller than its alignment gap. */
  lemma WrapExactly(m: View, at: int, b: int, cb: nat, align: nat)
    requires 0 < align < WORD && cb >= 1 && Picked(m, at, b, cb, align)
    ensures b + Gap(at, b, align) + 1 + cb <= End(m, b) <==> m[b].cb >= Gap(at, b, align)
    ensures m[b].cb < Gap(at, b, align) ==> b + Gap(at, b, align) >= End(m, b)
  {
  }
}
