/** Relocation of the simple heap (common/alloc/heapsimple.c): the bytes have been moved, and
    every link is shifted by the distance. */
module HeapMove {
  import opened HeapView
  import opened HeapMemory

  function ShiftedPtr(p: int, d: int): int {
    if p == 0 then 0 else p + d
  }

  function ShiftedHeader(g: Granule, d: int): Granule {
    if g.Header? then Header(ShiftedPtr(g.next, d), ShiftedPtr(g.prev, d), ShiftedPtr(g.heap, d), g.isFree) else g
  }

  function ShiftedLinks(g: Granule, d: int): Granule {
    if g.Links? then Links(ShiftedPtr(g.fnext, d), ShiftedPtr(g.fprev, d), g.cb) else g
  }

  /** Granule i after relocation: headers and free-list links are shifted, the rest stays. */
  ghost function ShiftedAt(s: seq<Granule>, m: View, d: int, i: int): Granule
    requires 0 <= i < |s|
  {
    if i in m then ShiftedHeader(s[i], d)
    else if i - 1 in FreeSet(m) then ShiftedLinks(s[i], d)
    else s[i]
  }

  ghost function Shifted(s: seq<Granule>, m: View, d: int): (s': seq<Granule>)
    ensures |s'| == |s|
  {
    seq(|s|, i requires 0 <= i < |s| => ShiftedAt(s, m, d, i))
  }

  ghost function ShiftedImage(h: Image, m: View, d: int): Image {
    Image(Shifted(h.s, m, d), ShiftedPtr(h.head, d), ShiftedPtr(h.tail, d), h.cbFree)
  }

  lemma ShiftedChained(s: seq<Granule>, m: View, at: int, d: int)
    requires Chained(s, m, at) && WellFormed(m, |s|) && at + d > 0
    ensures Chained(Shifted(s, m, d), m, at + d)
  {
    var s' := Shifted(s, m, d);
    forall b | b in m ensures HeaderOk(s', m, at + d, b) {
      assert HeaderOk(s, m, at, b);
      assert s'[b] == ShiftedHeader(s[b], d);
    }
  }

  lemma ShiftedListed(s: seq<Granule>, m: View, at: int, d: int, head: int, tail: int)
    requires Listed(s, FreeSet(m), at, head, tail) && WellFormed(m, |s|) && at + d > 0
    ensures Listed(Shifted(s, m, d), FreeSet(m), at + d, ShiftedPtr(head, d), ShiftedPtr(tail, d))
  {
    var F, s' := FreeSet(m), Shifted(s, m, d);
    LinksApartFromHeaders(m, |s|);
    ShiftedOff(F, at, d, head, 0, |s|);
    ShiftedOff(F, at, d, tail, 0, |s|);
    forall f | f in F ensures LinksOk(s', F, at + d, f) {
      assert LinksOk(s, F, at, f);
      assert f + 1 !in m && (f + 1) - 1 in F;
      assert s'[f + 1] == ShiftedLinks(s[f + 1], d);
      ShiftedOff(F, at, d, s[f + 1].fnext, f, |s|);
      ShiftedOff(F, at, d, s[f + 1].fprev, f, |s|);
    }
  }

  /** A pointer to a listed block has the same heap offset before and after the move. */
  lemma ShiftedOff(F: set<int>, at: int, d: int, p: int, f: int, n: int)
    requires at > 0 && at + d > 0 && InRange(F, n)
    requires NextIn(F, f, Off(at, p)) || PrevIn(F, f, Off(at, p)) || PrevIn(F, n, Off(at, p))
    requires f >= 0
    ensures Off(at + d, ShiftedPtr(p, d)) == Off(at, p)
  {
  }

  lemma ShiftedCached(s: seq<Granule>, m: View, d: int)
    requires CachedBut(s, m, 0) && WellFormed(m, |s|)
    ensures CachedBut(Shifted(s, m, d), m, 0)
  {
    LinksApartFromHeaders(m, |s|);
    forall f | f in FreeSet(m) && f != 0 ensures CacheOk(Shifted(s, m, d), m, f) {
      assert CacheOk(s, m, f) && (f + 1) - 1 in FreeSet(m);
    }
  }

  /** Relocation is a translation: the heap is sound at the new place for the same blocks. */
  lemma ShiftedSound(h: Image, m: View, at: int, d: int)
    requires Sound(h, m, at) && at + d > 0
    ensures Sound(ShiftedImage(h, m, d), m, at + d)
    ensures PayloadsKept(m, h.s, ShiftedImage(h, m, d).s)
  {
    ShiftedChained(h.s, m, at, d);
    ShiftedListed(h.s, m, at, d, h.head, h.tail);
    ShiftedCached(h.s, m, d);
    OutsidePayloads(m, |h.s|);
    hide Chained, Listed, CachedBut, FreeSum, InPayload;
    forall a | 0 <= a < |h.s| && InPayload(m, a) ensures Shifted(h.s, m, d)[a] == h.s[a] {
      FreeInside(m, |h.s|, a);
    }
  }

  lemma FreeInside(m: View, n: int, a: int)
    requires WellFormed(m, n) && InPayload(m, a)
    ensures a !in m && a - 1 !in FreeSet(m)
  {
  }

  /** Relocating by d and then back restores every link. */
  lemma ShiftedBack(h: Image, m: View, at: int, d: int)
    requires Sound(h, m, at) && at + d > 0
    ensures ShiftedImage(ShiftedImage(h, m, d), m, -d) == h
  {
    LinksApartFromHeaders(m, |h.s|);
    var s', s'' := Shifted(h.s, m, d), Shifted(Shifted(h.s, m, d), m, -d);
    forall i | 0 <= i < |h.s| ensures s''[i] == h.s[i] {
      GranuleBack(h, m, at, d, i);
    }
    EndsBack(h, m, at, d);
  }

  lemma GranuleBack(h: Image, m: View, at: int, d: int, i: int)
    requires Sound(h, m, at) && at + d > 0 && 0 <= i < |h.s|
    ensures ShiftedAt(Shifted(h.s, m, d), m, -d, i) == h.s[i]
  {
    if i in m {
      HeaderNeighbours(h.s, m, at, i);
      HeaderInRange(h, m, at, i);
    } else if i - 1 in FreeSet(m) {
      LinksInRange(h, m, at, i - 1);
    }
  }

  lemma HeaderInRange(h: Image, m: View, at: int, b: int)
    requires Sound(h, m, at) && b in m && 0 <= b < |h.s|
    ensures h.s[b].Header? && h.s[b].heap == at
    ensures h.s[b].next == 0 || h.s[b].next > at
    ensures h.s[b].prev == 0 || h.s[b].prev > at
  {
    HeaderNeighbours(h.s, m, at, b);
  }

  lemma LinksInRange(h: Image, m: View, at: int, f: int)
    requires Sound(h, m, at) && f in FreeSet(m)
    ensures 0 <= f + 1 < |h.s| && h.s[f + 1].Links?
    ensures h.s[f + 1].fnext == 0 || h.s[f + 1].fnext > at
    ensures h.s[f + 1].fprev == 0 || h.s[f + 1].fprev > at
  {
    assert LinksOk(h.s, FreeSet(m), at, f);
  }

  lemma EndsBack(h: Image, m: View, at: int, d: int)
    requires Sound(h, m, at) && at + d > 0
    ensures h.head == 0 || h.head > at
    ensures h.tail == 0 || h.tail > at
    ensures ShiftedPtr(ShiftedPtr(h.head, d), -d) == h.head
    ensures ShiftedPtr(ShiftedPtr(h.tail, d), -d) == h.tail
  {
  }

  lemma EndsInRange(h: Image, m: View, at: int)
    requires Sound(h, m, at)
    ensures h.head == 0 || at < h.head < at + |h.s|
    ensures h.tail == 0 || at < h.tail < at + |h.s|
  {
  }

  lemma BlocksStart(h: Image, m: View, at: int, d: int)
    requires Sound(h, m, at)
    ensures FIRST in m && FIRST < |h.s|
    ensures forall i :: 0 <= i < FIRST ==> ShiftedAt(h.s, m, d, i) == h.s[i]
  {
  }

  /** The pointers in the header and the links of block k lie inside the heap or are NULL. */
  ghost predicate Shiftable(h: Image, m: View, at: int, k: int) {
    && 0 <= k && k + 1 < |h.s| && h.s[k].Header? && h.s[k].isFree == IsFree(m, k)
    && Near(h, at, h.s[k].next) && Near(h, at, h.s[k].prev) && Near(h, at, h.s[k].heap)
    && (IsFree(m, k) ==> h.s[k + 1].Links? && Near(h, at, h.s[k + 1].fnext) && Near(h, at, h.s[k + 1].fprev))
  }

  ghost predicate Near(h: Image, at: int, p: int) {
    p == 0 || at <= p <= at + |h.s|
  }

  lemma BlockToShift(h: Image, m: View, at: int, d: int, k: int)
    requires Sound(h, m, at) && k in m && at + d > 0
    ensures FIRST <= k && k + 1 < |h.s| && Shiftable(h, m, at, k)
    ensures k < End(m, k) <= |h.s| && (End(m, k) == |h.s| || End(m, k) in m)
    ensures var g := ShiftedHeader(h.s[k], d);
      g.Header? && g.next == (if End(m, k) == |h.s| then 0 else at + d + End(m, k))
      && (End(m, k) < |h.s| ==> g.next != 0)
  {
    HeaderNeighbours(h.s, m, at, k);
    if k == FIRST && m[k].kind.Pad? { assert End(m, k) in m; }
    if IsFree(m, k) {
      assert k in FreeSet(m) && LinksOk(h.s, FreeSet(m), at, k);
    }
  }

  /** Between the first granules of a block and the next header nothing is shifted. */
  lemma ShiftedOutside(h: Image, m: View, at: int, d: int, k: int)
    requires Sound(h, m, at) && k in m && 0 <= k < |h.s|
    ensures ShiftedAt(h.s, m, d, k) == ShiftedHeader(h.s[k], d)
    ensures k + 1 < End(m, k) && k + 1 < |h.s| ==>
      ShiftedAt(h.s, m, d, k + 1) == if IsFree(m, k) then ShiftedLinks(h.s[k + 1], d) else h.s[k + 1]
    ensures forall i :: k + 1 < i < End(m, k) && i < |h.s| ==> ShiftedAt(h.s, m, d, i) == h.s[i]
    ensures IsFree(m, k) ==> k + 1 < End(m, k)
  {
  }
}
