/** The steps of allocation (common/alloc/heapsimple.c) on the heap memory: alignment donation,
    splitting a block, and taking a whole block. */
module HeapAlloc {
  import opened HeapView
  import opened HeapMemory

  // ----- moving the header of a free block up -----

  /** The free block f can give gap granules away, and d is the block in front of it or f
      itself when there is none. */
  ghost predicate CanMoveUp(s: seq<Granule>, m: View, at: int, d: int, f: int, gap: int) {
    && IsFree(m, f) && 0 < gap < m[f].cb
    && (if f == FIRST then d == FIRST else Before(m, d, f))
    && FIRST <= d <= f && End(m, f) <= |s|
    && s[f].Header? && s[d].Header? && s[f + 1].Links? && s[f + 1].cb == m[f].cb
    && s[f].prev == (if f == FIRST then 0 else at + d) && (f != FIRST ==> s[f].prev != 0)
    && s[f].next == (if End(m, f) == |s| then 0 else at + End(m, f))
    && (End(m, f) < |s| ==> s[End(m, f)].Header? && s[f].next != 0)
  }

  lemma MoveUpSetup(h: Image, m: View, at: int, f: int, gap: int) returns (d: int)
    requires Sound(h, m, at) && IsFree(m, f) && 0 < gap < m[f].cb
    ensures CanMoveUp(h.s, m, at, d, f, gap)
  {
    HeaderNeighbours(h.s, m, at, f);
    assert f in FreeSet(m) && CacheOk(h.s, m, f);
    d := if f == FIRST then FIRST else h.s[f].prev - at;
  }

  /** The memory after the header writes of alignment donation. */
  ghost function MovedUp(s: seq<Granule>, m: View, at: int, d: int, f: int, gap: int): (s': seq<Granule>)
    ensures |s'| == |s|
  {
    if !CanMoveUp(s, m, at, d, f, gap) then s else
    var g := f + gap;
    var donor := if f == FIRST then Header(at + g, 0, at, false) else s[d].(next := at + g);
    var s1 := s[d := donor][g := s[f].(prev := at + d)][g + 1 := s[f + 1].(cb := s[f + 1].cb - gap)];
    if End(m, f) < |s| then s1[End(m, f) := s[End(m, f)].(prev := at + g)] else s1
  }

  /** The three parts of the move: the block in front, the copy, the block behind. */
  lemma MovedUpInParts(s: seq<Granule>, m: View, at: int, d: int, f: int, gap: int)
    requires CanMoveUp(s, m, at, d, f, gap)
    ensures var g := f + gap;
      var s1 := s[d := if f == FIRST then Header(at + g, 0, at, false) else s[d].(next := at + g)];
      var s2 := s1[g := s[f].(prev := at + d)][g + 1 := s[f + 1]];
      var s3 := if End(m, f) == |s| then s2 else s2[End(m, f) := s2[End(m, f)].(prev := at + g)];
      MovedUp(s, m, at, d, f, gap) == s3[g + 1 := s[f + 1].(cb := s[f + 1].cb - gap)]
  {
  }

  lemma MovedUpChained(s: seq<Granule>, m: View, at: int, d: int, f: int, gap: int)
    requires CanMoveUp(s, m, at, d, f, gap) && Chained(s, m, at) && WellFormed(m, |s|)
    ensures Chained(MovedUp(s, m, at, d, f, gap), Donated(m, d, f, gap), at)
  {
    DonatedKeeps(m, |s|, d, f, gap);
    HeaderNeighbours(s, m, at, f);
    if f == FIRST {
      SplitChained(s, MovedUp(s, m, at, d, f, gap), m, Donated(m, d, f, gap), at, f, f + gap);
    } else {
      MovedUpBehind(s, m, at, d, f, gap);
    }
  }

  lemma MovedUpBehind(s: seq<Granule>, m: View, at: int, d: int, f: int, gap: int)
    requires CanMoveUp(s, m, at, d, f, gap) && f != FIRST && s[f].heap == at && s[f].isFree
    requires Chained(s, m, at) && WellFormed(m, |s|) && Tiled(Donated(m, d, f, gap), |s|)
    ensures Chained(MovedUp(s, m, at, d, f, gap), Donated(m, d, f, gap), at)
  {
    assert Apart(m, d);
    assert FIRST <= d && f + gap !in m && End(m, d) == f && d in m && f in m;
    hide Tiled, HeaderOk, WellFormed;
    MovedUpGranules(s, m, at, d, f, gap);
    hide CanMoveUp, MovedUp;
    DonatedBehind(m, d, f, gap);
    hide Donated;
    ShiftedChained(s, MovedUp(s, m, at, d, f, gap), m, Donated(m, d, f, gap), at, d, f, f + gap);
  }

  lemma DonatedBehind(m: View, d: int, f: int, gap: int)
    requires IsFree(m, f) && f != FIRST && Before(m, d, f) && 0 < gap < m[f].cb && f + gap !in m
    ensures var m' := Donated(m, d, f, gap);
      && m'.Keys == m.Keys - {f} + {f + gap} && End(m', d) == f + gap && End(m', f + gap) == End(m, f)
      && m'[d].kind == m[d].kind && m'[f + gap].kind == m[f].kind
      && forall c :: c in m && c != d && c != f ==> m'[c] == m[c]
  {
  }

  lemma MovedUpGranules(s: seq<Granule>, m: View, at: int, d: int, f: int, gap: int)
    requires CanMoveUp(s, m, at, d, f, gap) && f != FIRST && d < f
    requires forall c :: c in m && c < f ==> c <= d
    requires forall c :: c in m && c > f ==> c >= End(m, f)
    ensures var s' := MovedUp(s, m, at, d, f, gap);
      && s[d].Header? && s'[d] == s[d].(next := at + f + gap) && s[f].Header? && s'[f + gap] == s[f].(prev := at + d)
      && (End(m, f) < |s| ==> s[End(m, f)].Header? && s'[End(m, f)] == s[End(m, f)].(prev := at + f + gap))
      && (forall c :: c in m && 0 <= c < |s| && c != d && c != f && c != End(m, f) ==> s'[c] == s[c])
  {
  }

  lemma MovedUpFrame(s: seq<Granule>, m: View, at: int, d: int, f: int, gap: int)
    requires CanMoveUp(s, m, at, d, f, gap) && WellFormed(m, |s|)
    ensures PayloadsKept(m, s, MovedUp(s, m, at, d, f, gap))
    ensures LinksCopied(s, MovedUp(s, m, at, d, f, gap), FreeSet(m), f, f + gap)
    ensures MovedUp(s, m, at, d, f, gap)[f + gap + 1].cb == m[f].cb - gap
    ensures forall c :: c in FreeSet(m) && c != f ==> MovedUp(s, m, at, d, f, gap)[c + 1] == s[c + 1]
  {
  }

  lemma DonatedCached(s: seq<Granule>, s1: seq<Granule>, s2: seq<Granule>, m: View, d: int, f: int, gap: int)
    requires WellFormed(m, |s|) && InRange(FreeSet(m), |s|) && CachedBut(s, m, 0)
    requires IsFree(m, f) && 0 < gap < m[f].cb && (if f == FIRST then d == FIRST else Before(m, d, f))
    requires |s1| == |s| && forall c :: c in FreeSet(m) && c != f ==> s1[c + 1] == s[c + 1]
    requires OnlyLinks(s1, s2, FreeSet(m) - {f})
    requires s1[f + gap + 1].Links? && s1[f + gap + 1].cb == m[f].cb - gap
    ensures InRange(FreeSet(Donated(m, d, f, gap)), |s|) && CachedBut(s2, Donated(m, d, f, gap), 0)
  {
    var m' := Donated(m, d, f, gap);
    DonatedFreeSet(m, |s|, d, f, gap);
    assert f != FIRST ==> Apart(m, d);
    forall c | c in FreeSet(m') && c != 0 ensures CacheOk(s2, m', c) {
      if c != f + gap {
        assert CacheOk(s, m, c);
        assert s1[c + 1] == s[c + 1];
      }
    }
  }

  ghost function MovedUpImage(h: Image, m: View, at: int, d: int, f: int, gap: int): Image {
    h.(s := MovedUp(h.s, m, at, d, f, gap), cbFree := h.cbFree - gap)
  }

  lemma DonateHalfway(h: Image, m: View, at: int, d: int, f: int, gap: int)
    requires Sound(h, m, at) && CanMoveUp(h.s, m, at, d, f, gap)
    ensures CanPatch(MovedUpImage(h, m, at, d, f, gap).s, at, f + gap)
  {
    MovedUpFrame(h.s, m, at, d, f, gap);
    hide Listed, MovedUp, LinksCopied;
    CopiedCanPatch(h.s, MovedUp(h.s, m, at, d, f, gap), FreeSet(m), at, h.head, h.tail, f, f + gap);
  }

  /** The header moved up, then the free-list neighbours patched: the heap is sound again. */
  lemma DonateSound(h: Image, m: View, at: int, d: int, f: int, gap: int)
    requires Sound(h, m, at) && CanMoveUp(h.s, m, at, d, f, gap)
    requires CanPatch(MovedUpImage(h, m, at, d, f, gap).s, at, f + gap)
    ensures Sound(Relinked(MovedUpImage(h, m, at, d, f, gap), at, f + gap), Donated(m, d, f, gap), at)
    ensures PayloadsKept(m, h.s, Relinked(MovedUpImage(h, m, at, d, f, gap), at, f + gap).s)
  {
    hide Chained, Listed, MovedUp, Donated, CachedBut, SameGap, OnlyLinks, LinksCopied, WellFormed, FreeSum,
      CanMoveUp, PayloadsKept, Patched, CanPatch;
    var F, s1, m', g := FreeSet(m), MovedUp(h.s, m, at, d, f, gap), Donated(m, d, f, gap), f + gap;
    DonateFacts(h, m, at, d, f, gap);
    PatchAfterCopy(h.s, s1, F, at, h.head, h.tail, f, g);
    PatchedOnlyLinks(h.s, s1, F, at, h.head, h.tail, f, g);
    var s2 := Patched(s1, at, g, at + g, at + g);
    RelinkedFrames(h.s, s1, s2, m, m', at, f);
    DonatedCached(h.s, s1, s2, m, d, f, gap);
  }

  lemma DonateFacts(h: Image, m: View, at: int, d: int, f: int, gap: int)
    requires Sound(h, m, at) && CanMoveUp(h.s, m, at, d, f, gap)
    ensures var s1, m' := MovedUp(h.s, m, at, d, f, gap), Donated(m, d, f, gap);
      && WellFormed(m', |h.s|) && Chained(s1, m', at)
      && FreeSum(m', FIRST, |h.s|) == h.cbFree - gap
      && PayloadsKept(m, h.s, s1) && LinksCopied(h.s, s1, FreeSet(m), f, f + gap)
      && s1[f + gap + 1].Links? && s1[f + gap + 1].cb == m[f].cb - gap
      && (forall c :: c in FreeSet(m) && c != f ==> s1[c + 1] == h.s[c + 1])
      && FreeSet(m') == FreeSet(m) - {f} + {f + gap}
      && InRange(FreeSet(m), |h.s|)
      && IsFree(m, f) && 0 < gap < m[f].cb && (if f == FIRST then d == FIRST else Before(m, d, f))
  {
    MovedUpChained(h.s, m, at, d, f, gap);
    MovedUpFrame(h.s, m, at, d, f, gap);
    DonatedKeeps(m, |h.s|, d, f, gap);
    DonatedSum(m, |h.s|, d, f, gap);
    DonatedFreeSet(m, |h.s|, d, f, gap);
    hide Chained, Listed, MovedUp, Donated, CachedBut, WellFormed, FreeSum, PayloadsKept;
  }

  // ----- splitting -----

  /** The free block f is large enough to be split behind cb granules of payload. */
  ghost predicate CanCarve(s: seq<Granule>, m: View, at: int, f: int, cb: nat) {
    && IsFree(m, f) && cb >= 1 && m[f].cb >= cb + 2
    && FIRST <= f && End(m, f) <= |s|
    && s[f].Header? && s[f].heap == at && s[f].isFree && s[f + 1].Links? && s[f + 1].cb == m[f].cb
    && s[f].next == (if End(m, f) == |s| then 0 else at + End(m, f))
    && (End(m, f) < |s| ==> s[End(m, f)].Header? && s[f].next != 0)
  }

  lemma CarveSetup(h: Image, m: View, at: int, f: int, cb: nat)
    requires Sound(h, m, at) && IsFree(m, f) && cb >= 1 && m[f].cb >= cb + 2
    ensures CanCarve(h.s, m, at, f, cb)
  {
    HeaderNeighbours(h.s, m, at, f);
    assert f in FreeSet(m) && CacheOk(h.s, m, f);
  }

  /** The new free header and links are in place. */
  ghost function SplitUp(s: seq<Granule>, m: View, at: int, f: int, cb: nat): (s': seq<Granule>)
    ensures |s'| == |s|
  {
    if !CanCarve(s, m, at, f, cb) then s else
    var g := f + 1 + cb;
    var s1 := s[g := Header(s[f].next, at + f, at, true)];
    var s2 := if End(m, f) < |s| then s1[End(m, f) := s[End(m, f)].(prev := at + g)] else s1;
    s2[g + 1 := Links(s[f + 1].fnext, s[f + 1].fprev, 0)]
  }

  /** The new free block gets its size and the old one becomes a used block in front of it. */
  ghost function Sealed(h: Image, at: int, f: int, g: int, cb: nat): Image {
    if !(0 <= f < g && g + 1 < |h.s| && h.s[g + 1].Links? && h.s[f].Header? && h.s[f + 1].Links?) then h else
    Image(h.s[g + 1 := h.s[g + 1].(cb := cb)][f := h.s[f].(isFree := false, next := at + g)],
          h.head, h.tail, h.cbFree - h.s[f + 1].cb + cb)
  }

  ghost function SplitUpImage(h: Image, m: View, at: int, f: int, cb: nat): Image {
    h.(s := SplitUp(h.s, m, at, f, cb))
  }

  lemma SplitUpFrame(s: seq<Granule>, m: View, at: int, f: int, cb: nat)
    requires CanCarve(s, m, at, f, cb) && WellFormed(m, |s|)
    ensures PayloadsKept(m, s, SplitUp(s, m, at, f, cb))
    ensures LinksCopied(s, SplitUp(s, m, at, f, cb), FreeSet(m), f, f + 1 + cb)
  {
  }

  lemma CarveHalfway(h: Image, m: View, at: int, f: int, cb: nat)
    requires Sound(h, m, at) && CanCarve(h.s, m, at, f, cb)
    ensures CanPatch(SplitUpImage(h, m, at, f, cb).s, at, f + 1 + cb)
  {
    SplitUpFrame(h.s, m, at, f, cb);
    hide Listed, SplitUp, LinksCopied;
    CopiedCanPatch(h.s, SplitUp(h.s, m, at, f, cb), FreeSet(m), at, h.head, h.tail, f, f + 1 + cb);
  }

  /** All header granules after the split, whatever happened to the free-list links. */
  lemma SplitHeaders(s0: seq<Granule>, s2: seq<Granule>, m: View, at: int, f: int, cb: nat, s3: seq<Granule>)
    requires Chained(s0, m, at) && WellFormed(m, |s0|) && CanCarve(s0, m, at, f, cb)
    requires OnlyLinks(SplitUp(s0, m, at, f, cb), s2, FreeSet(m) - {f})
    requires |s3| == |s0| && s2[f].Header?
    requires forall c :: 0 <= c < |s0| && c != f && c != f + cb + 2 ==> s3[c] == s2[c]
    requires s3[f] == s2[f].(isFree := false, next := at + f + 1 + cb)
    ensures Chained(s3, Carved(m, f, cb), at)
  {
    LinksApartFromHeaders(m, |s0|);
    CarvedKeeps(m, |s0|, f, cb);
    var g, s1 := f + 1 + cb, SplitUp(s0, m, at, f, cb);
    assert g - 1 !in FreeSet(m) - {f} && f - 1 !in FreeSet(m) - {f} && g !in m && f + cb + 2 !in m && g < |s0|;
    assert s2[f] == s1[f] && s2[g] == s1[g];
    SplitHeadersApart(s0, s1, s2, m, f, g);
    hide Tiled, HeaderOk, WellFormed, OnlyLinks, FreeSet;
    SplitUpGranules(s0, m, at, f, cb);
    hide CanCarve, SplitUp;
    CarvedAt(m, f, cb);
    hide Carved;
    SplitChained(s0, s3, m, Carved(m, f, cb), at, f, g);
  }

  lemma CarvedAt(m: View, f: int, cb: nat)
    requires f in m && m[f].cb >= cb + 2
    ensures var m', g := Carved(m, f, cb), f + 1 + cb;
      && m'.Keys == m.Keys + {g} && End(m', f) == g && End(m', g) == End(m, f)
      && m'[f].kind.Live? && m'[g].kind.Free?
      && (forall c :: c in m && c != f && c != g ==> m'[c] == m[c])
  {
  }

  lemma SplitUpGranules(s: seq<Granule>, m: View, at: int, f: int, cb: nat)
    requires CanCarve(s, m, at, f, cb) && f + 1 + cb !in m && f + cb + 2 !in m
    ensures var g, s' := f + 1 + cb, SplitUp(s, m, at, f, cb);
      && s'[f] == s[f] && s[f].Header? && s[f].heap == at && s'[g] == Header(s[f].next, at + f, at, true)
      && (End(m, f) < |s| ==> s[End(m, f)].Header? && s'[End(m, f)] == s[End(m, f)].(prev := at + g))
      && (forall c :: c in m && 0 <= c < |s| && c != End(m, f) ==> s'[c] == s[c])
      && f in m && g < End(m, f)
  {
  }

  lemma SplitHeadersApart(s0: seq<Granule>, s1: seq<Granule>, s2: seq<Granule>, m: View, f: int, g: int)
    requires OnlyLinks(s1, s2, FreeSet(m) - {f}) && Tiled(m, |s0|) && |s1| == |s0|
    requires forall k :: k in FreeSet(m) ==> k + 1 !in m
    ensures forall c :: c in m ==> s2[c] == s1[c]
  {
  }

  lemma CarvedCached(s: seq<Granule>, s3: seq<Granule>, m: View, f: int, cb: nat)
    requires WellFormed(m, |s|) && CachedBut(s, m, 0) && IsFree(m, f) && cb >= 1 && m[f].cb >= cb + 2 && |s3| == |s|
    requires forall c :: c in FreeSet(m) && c != f ==>
      s3[c + 1].Links? && s[c + 1].Links? && s3[c + 1].cb == s[c + 1].cb
    requires s3[f + cb + 2].Links? && s3[f + cb + 2].cb == m[f].cb - cb - 1
    ensures CachedBut(s3, Carved(m, f, cb), 0)
  {
    var m' := Carved(m, f, cb);
    CarvedFreeSet(m, |s|, f, cb);
    forall c | c in FreeSet(m') && c != 0 ensures CacheOk(s3, m', c) {
      if c != f + 1 + cb { assert CacheOk(s, m, c); }
    }
  }

  lemma CarveFacts(h: Image, m: View, at: int, f: int, cb: nat)
    requires Sound(h, m, at) && CanCarve(h.s, m, at, f, cb)
    ensures var s1, m', g := SplitUp(h.s, m, at, f, cb), Carved(m, f, cb), f + 1 + cb;
      && WellFormed(m, |h.s|) && WellFormed(m', |h.s|) && InRange(FreeSet(m), |h.s|)
      && FreeSum(m', FIRST, |h.s|) == h.cbFree - 1 - cb
      && PayloadsKept(m, h.s, s1) && LinksCopied(h.s, s1, FreeSet(m), f, g)
      && FreeSet(m') == FreeSet(m) - {f} + {g} && f in FreeSet(m)
      && f - 1 !in FreeSet(m) && g - 1 !in FreeSet(m) && g !in FreeSet(m)
      && (forall c :: c in FreeSet(m) && c != f ==>
          c + 1 != f && c + 1 != g && h.s[c + 1].Links? && s1[c + 1] == h.s[c + 1])
      && IsFree(m, f) && cb >= 1 && m[f].cb >= cb + 2
      && !InPayload(m, f) && !InPayload(m, g + 1) && (forall c :: c in FreeSet(m) ==> !InPayload(m, c + 1))
      && FIRST <= f && g + 1 < End(m, f) <= |h.s|
      && h.s[f].Header? && s1[f] == h.s[f] && h.s[f + 1].cb == m[f].cb && s1[f + 1].Links? && s1[f + 1].cb == m[f].cb
  {
    SplitUpFrame(h.s, m, at, f, cb);
    CarvedKeeps(m, |h.s|, f, cb);
    CarvedSum(m, |h.s|, f, cb);
    CarvedFreeSet(m, |h.s|, f, cb);
    LinksApartFromHeaders(m, |h.s|);
    OutsidePayloads(m, |h.s|);
    forall c | c in FreeSet(m) ensures h.s[c + 1].Links? { assert CacheOk(h.s, m, c); }
    hide Chained, Listed, Carved, CachedBut, FreeSum, PayloadsKept, LinksCopied, Coalesced;
  }

  /** Splitting keeps the heap sound and everyone's payload. */
  lemma CarveSound(h: Image, m: View, at: int, f: int, cb: nat)
    requires Sound(h, m, at) && CanCarve(h.s, m, at, f, cb)
    requires CanPatch(SplitUpImage(h, m, at, f, cb).s, at, f + 1 + cb)
    ensures Sound(Sealed(Relinked(SplitUpImage(h, m, at, f, cb), at, f + 1 + cb), at, f, f + 1 + cb, m[f].cb - cb - 1),
                  Carved(m, f, cb), at)
    ensures PayloadsKept(m, h.s,
                         Sealed(Relinked(SplitUpImage(h, m, at, f, cb), at, f + 1 + cb),
                                at, f, f + 1 + cb, m[f].cb - cb - 1).s)
  {
    hide Chained, Listed, SplitUp, Carved, CachedBut, OnlyLinks, LinksCopied, WellFormed, FreeSum, CanCarve,
      PayloadsKept, Patched, CanPatch, InPayload;
    var F, s1, g := FreeSet(m), SplitUp(h.s, m, at, f, cb), f + 1 + cb;
    CarveFacts(h, m, at, f, cb);
    PatchAfterCopy(h.s, s1, F, at, h.head, h.tail, f, g);
    PatchedOnlyLinks(h.s, s1, F, at, h.head, h.tail, f, g);
    var h2 := Relinked(SplitUpImage(h, m, at, f, cb), at, g);
    SealSound(h, s1, h2, m, at, f, cb);
  }

  /** Blocks f and g are in place and cb is what is left behind g, by the links in memory. */
  ghost predicate CanSeal(s: seq<Granule>, at: int, pvEnd: int, f: int, g: int, cb: int) {
    && 0 <= f < g && g + 1 < |s|
    && s[f].Header? && s[f + 1].Links? && s[g].Header? && s[g + 1].Links?
    && cb == (if s[g].next != 0 then s[g].next else pvEnd) - (at + g) - 1
  }

  lemma CarveSealable(h: Image, m: View, at: int, f: int, cb: nat)
    requires Sound(h, m, at) && CanCarve(h.s, m, at, f, cb)
    requires CanPatch(SplitUpImage(h, m, at, f, cb).s, at, f + 1 + cb)
    ensures CanSeal(Relinked(SplitUpImage(h, m, at, f, cb), at, f + 1 + cb).s, at, at + |h.s|,
            f, f + 1 + cb, m[f].cb - cb - 1)
  {
  }

  lemma SealSound(h: Image, s1: seq<Granule>, h2: Image, m: View, at: int, f: int, cb: nat)
    requires Sound(h, m, at) && CanCarve(h.s, m, at, f, cb) && s1 == SplitUp(h.s, m, at, f, cb)
    requires OnlyLinks(s1, h2.s, FreeSet(m) - {f}) && h2.cbFree == h.cbFree
    requires Listed(h2.s, FreeSet(m) - {f} + {f + 1 + cb}, at, h2.head, h2.tail)
    ensures Sound(Sealed(h2, at, f, f + 1 + cb, m[f].cb - cb - 1), Carved(m, f, cb), at)
    ensures PayloadsKept(m, h.s, Sealed(h2, at, f, f + 1 + cb, m[f].cb - cb - 1).s)
  {
    hide Chained, Listed, SplitUp, Carved, CachedBut, LinksCopied, WellFormed, FreeSum, CanCarve, InPayload, FreeSet;
    CarveFacts(h, m, at, f, cb);
    var g, h3 := f + 1 + cb, Sealed(h2, at, f, f + 1 + cb, m[f].cb - cb - 1);
    SealFacts(h, s1, h2, h3, m, at, f, cb);
    SplitHeaders(h.s, h2.s, m, at, f, cb, h3.s);
    ListedFrame(h2.s, h3.s, FreeSet(m) - {f} + {g}, at, h2.head, h2.tail);
    CarvedCached(h.s, h3.s, m, f, cb);
  }

  lemma SealFacts(h: Image, s1: seq<Granule>, h2: Image, h3: Image, m: View, at: int, f: int, cb: nat)
    requires Sound(h, m, at) && CanCarve(h.s, m, at, f, cb) && s1 == SplitUp(h.s, m, at, f, cb)
    requires OnlyLinks(s1, h2.s, FreeSet(m) - {f}) && h2.cbFree == h.cbFree
    requires h3 == Sealed(h2, at, f, f + 1 + cb, m[f].cb - cb - 1)
    ensures |h3.s| == |h2.s| == |h.s| && h2.s[f].Header?
    ensures h3.s[f] == h2.s[f].(isFree := false, next := at + f + 1 + cb)
    ensures forall c :: 0 <= c < |h.s| && c != f && c != f + cb + 2 ==> h3.s[c] == h2.s[c]
    ensures h3.s[f + cb + 2].Links? && h3.s[f + cb + 2].cb == m[f].cb - cb - 1 && h2.s[f + cb + 2].Links?
    ensures h3.s[f + cb + 2].fnext == h2.s[f + cb + 2].fnext && h3.s[f + cb + 2].fprev == h2.s[f + cb + 2].fprev
    ensures forall c :: c in FreeSet(m) && c != f ==>
      h3.s[c + 1].Links? && h.s[c + 1].Links? && h3.s[c + 1].cb == h.s[c + 1].cb
    ensures PayloadsKept(m, h.s, h3.s)
    ensures h3.cbFree == h.cbFree - 1 - cb && h3.head == h2.head && h3.tail == h2.tail
  {
    hide Chained, Listed, Carved, CachedBut, WellFormed, FreeSum, CanCarve, InPayload, FreeSet, SplitUp;
    CarveFacts(h, m, at, f, cb);
    var F := FreeSet(m);
    forall c | c in F && c != f ensures h3.s[c + 1].Links? && h3.s[c + 1].cb == h.s[c + 1].cb {
      assert (c + 1) - 1 in F - {f};
    }
    forall a | 0 <= a < |h.s| && InPayload(m, a) ensures h3.s[a] == h.s[a] {
      assert a - 1 in F ==> !InPayload(m, (a - 1) + 1);
    }
  }

  // ----- taking a whole block -----

  /** The free block f leaves the free list and becomes a used block. */
  ghost function TakenImage(h: Image, at: int, f: int): Image {
    if !(CanPatch(h.s, at, f) && h.s[f].Header?) then h else
    var (fn, fp) := (h.s[f + 1].fnext, h.s[f + 1].fprev);
    var s1 := Patched(h.s, at, f, fn, fp);
    Image(s1[f := h.s[f].(isFree := false)],
          if fp == 0 then fn else h.head,
          if fn == 0 then fp else h.tail,
          h.cbFree - h.s[f + 1].cb)
  }

  lemma TakeFacts(h: Image, m: View, at: int, f: int)
    requires Sound(h, m, at) && IsFree(m, f)
    ensures WellFormed(m, |h.s|) && WellFormed(Taken(m, f), |h.s|)
    ensures FreeSum(Taken(m, f), FIRST, |h.s|) == h.cbFree - m[f].cb
    ensures FreeSet(Taken(m, f)) == FreeSet(m) - {f} && f in FreeSet(m) && f - 1 !in FreeSet(m)
    ensures InRange(FreeSet(m), |h.s|) && h.s[f].Header? && h.s[f + 1].Links? && h.s[f + 1].cb == m[f].cb
    ensures forall c :: c in FreeSet(m) ==> c + 1 !in m && !InPayload(m, c + 1) && h.s[c + 1].Links?
    ensures !InPayload(m, f)
  {
    TakenKeeps(m, |h.s|, f);
    LinksApartFromHeaders(m, |h.s|);
    OutsidePayloads(m, |h.s|);
    HeaderNeighbours(h.s, m, at, f);
    forall c | c in FreeSet(m) ensures CacheOk(h.s, m, c) { }
    hide Chained, Listed, CachedBut, FreeSum;
  }

  /** Taking a block keeps the heap sound and everyone's payload. */
  lemma TakeSound(h: Image, m: View, at: int, f: int)
    requires Sound(h, m, at) && IsFree(m, f)
    ensures CanPatch(h.s, at, f) && h.s[f].Header?
    ensures Sound(TakenImage(h, at, f), Taken(m, f), at) && PayloadsKept(m, h.s, TakenImage(h, at, f).s)
  {
    hide Chained, Listed, CachedBut, FreeSum, WellFormed, FreeSet, OnlyLinks, Patched, CanPatch, Taken, InPayload;
    TakeFacts(h, m, at, f);
    var F := FreeSet(m);
    PatchUnlinks(h.s, F, at, h.head, h.tail, f);
    var fn, fp := h.s[f + 1].fnext, h.s[f + 1].fprev;
    var s1, h2 := Patched(h.s, at, f, fn, fp), TakenImage(h, at, f);
    assert |s1| == |h.s| by { assert OnlyLinks(h.s, s1, F - {f}); PatchedLength(h.s, at, f, fn, fp); }
    TakeHeaders(h.s, s1, h2.s, m, at, f);
    ListedFrame(s1, h2.s, F - {f}, at, h2.head, h2.tail);
    TakenCached(h.s, s1, h2.s, m, f);
  }

  lemma TakeHeaders(s0: seq<Granule>, s1: seq<Granule>, s2: seq<Granule>, m: View, at: int, f: int)
    requires Chained(s0, m, at) && WellFormed(m, |s0|) && IsFree(m, f) && s0[f].Header?
    requires OnlyLinks(s0, s1, FreeSet(m) - {f})
    requires 0 <= f < |s0| && f - 1 !in FreeSet(m) && s2 == s1[f := s0[f].(isFree := false)]
    requires forall c :: c in FreeSet(m) ==> c + 1 !in m && !InPayload(m, c + 1)
    requires !InPayload(m, f) && WellFormed(Taken(m, f), |s0|)
    ensures Chained(s2, Taken(m, f), at) && PayloadsKept(m, s0, s2)
  {
    forall a | a in m || InPayload(m, a) ensures a - 1 !in FreeSet(m) {
      assert a - 1 in FreeSet(m) ==> (a - 1) + 1 !in m && !InPayload(m, (a - 1) + 1);
    }
    hide Chained, InPayload, Coalesced, FreeSet;
    FlaggedChained(s0, s2, m, Taken(m, f), at, f);
  }

  lemma TakenCached(s: seq<Granule>, s1: seq<Granule>, s2: seq<Granule>, m: View, f: int)
    requires CachedBut(s, m, 0) && IsFree(m, f) && OnlyLinks(s, s1, FreeSet(m) - {f}) && 0 <= f < |s|
    requires f - 1 !in FreeSet(m) && |s2| == |s1| && s2 == s1[f := s2[f]]
    ensures CachedBut(s2, Taken(m, f), 0)
  {
    var m' := Taken(m, f);
    forall c | c in FreeSet(m') && c != 0 ensures CacheOk(s2, m', c) {
      assert c in FreeSet(m) - {f} && CacheOk(s, m, c);
      assert (c + 1) - 1 in FreeSet(m) - {f};
    }
  }

  // ----- the search and the whole allocation -----

  /** The search has passed every free block below q, and q is the next one (NULL at the end). */
  ghost predicate Searched(m: View, at: int, cb: int, align: int, q: int)
    requires align > 0
  {
    && (q != 0 ==> IsFree(m, q - at))
    && forall c :: c in FreeSet(m) && (q == 0 || c < q - at) ==> !Accepted(m, at, c, cb, align)
  }

  lemma SearchStart(h: Image, m: View, at: int, cb: int, align: int)
    requires Sound(h, m, at) && align > 0
    ensures Searched(m, at, cb, align, h.head) && at > 0
  {
  }

  lemma SearchStep(h: Image, m: View, at: int, cb: int, align: int, q: int)
    requires Sound(h, m, at) && align > 0 && q != 0 && Searched(m, at, cb, align, q)
    ensures FIRST <= q - at && q - at + 1 < |h.s| && h.s[q - at + 1].Links? && h.s[q - at + 1].cb == m[q - at].cb
    ensures q < at + |h.s| && IsFree(m, q - at) && WellFormed(m, |h.s|)
    ensures !Accepted(m, at, q - at, cb, align) ==> Searched(m, at, cb, align, h.s[q - at + 1].fnext)
    ensures h.s[q - at + 1].fnext != 0 ==> q < h.s[q - at + 1].fnext
  {
    assert q - at in FreeSet(m);
    assert LinksOk(h.s, FreeSet(m), at, q - at) && CacheOk(h.s, m, q - at);
    hide Chained, Listed, CachedBut, FreeSum, Accepted;
  }

  /** Nothing was picked: no block fits. */
  lemma SearchFailed(m: View, at: int, cb: nat, align: int)
    requires 0 < align < WORD && Searched(m, at, cb, align, 0)
    ensures forall b :: !Fits(m, at, b, cb, align)
    ensures !Misfit(m, at, cb, align)
  {
    forall b ensures !Fits(m, at, b, cb, align) {
      if IsFree(m, b) {
        assert b in FreeSet(m);
        AcceptedFitsUnlessShort(m, at, b, cb, align);
      }
    }
    forall b ensures !Picked(m, at, b, cb, align) {
      if IsFree(m, b) { assert b in FreeSet(m); }
    }
  }

  /** The search stopped at q: that is the block it picks, and the only one. */
  lemma SearchStopped(m: View, at: int, cb: nat, align: int, q: int)
    requires 0 < align < WORD && q != 0 && Searched(m, at, cb, align, q) && Accepted(m, at, q - at, cb, align)
    ensures Picked(m, at, q - at, cb, align)
    ensures Misfit(m, at, cb, align) <==> cb == 0 || m[q - at].cb < Gap(at, q - at, align)
    ensures m[q - at].cb >= Gap(at, q - at, align) ==> Fits(m, at, q - at, cb, align)
  {
  }

  /** The block map after an allocation from the picked block b; d is the block in front. */
  ghost function Allocated(m: View, at: int, d: int, b: int, cb: nat, align: int): View
    requires align > 0
  {
    var gap := Gap(at, b, align);
    var m1 := if gap == 0 then m else Donated(m, d, b, gap);
    var g := b + gap;
    if g in m1 && m1[g].cb >= cb + 2 then Carved(m1, g, cb) else Taken(m1, g)
  }

  /** m' is what an allocation from the picked block b leaves of m. */
  ghost predicate IsAllocated(m: View, m': View, at: int, b: int, cb: nat, align: int)
    requires align > 0
  {
    exists d :: (if b == FIRST then d == FIRST else Before(m, d, b)) && m' == Allocated(m, at, d, b, cb, align)
  }

  /** What an allocation at p means for the callers: p is a live block of at least the size
      asked for, aligned, inside what was the free block b; every other live block is still
      there with at least its old payload, and nothing else became live. */
  ghost predicate Granted(m: View, m': View, at: int, b: int, p: int, cb: nat, align: int)
    requires align > 0
  {
    && (at + p + 1) % align == 0
    && p in m' && m'[p].kind.Live? && cb <= m'[p].cb <= cb + 1
    && IsFree(m, b) && b <= p && End(m', p) <= End(m, b)
    && (forall c :: c in m && m[c].kind.Live? ==> c in m' && m'[c].kind.Live? && m'[c].cb >= m[c].cb)
    && (forall c :: c in m' && m'[c].kind.Live? ==> c == p || (c in m && m[c].kind.Live?))
  }

  lemma AllocatedGranted(m: View, n: int, at: int, d: int, b: int, cb: nat, align: int)
    requires WellFormed(m, n) && align > 0 && cb >= 1 && Fits(m, at, b, cb, align)
    requires if b == FIRST then d == FIRST else Before(m, d, b)
    ensures Granted(m, Allocated(m, at, d, b, cb, align), at, b, b + Gap(at, b, align), cb, align)
  {
    hide Gap, WellFormed, Donated, Carved, Taken, Granted;
    GapBounds(at, b, align);
    var gap := Gap(at, b, align);
    if gap == 0 {
      PlainGranted(m, n, at, b, b, cb, align, m);
    } else {
      DonatedLive(m, n, d, b, gap);
      DonatedKeeps(m, n, d, b, gap);
      PlainGranted(m, n, at, b, b + gap, cb, align, Donated(m, d, b, gap));
    }
  }

  /** Donation keeps all live blocks, and only makes them larger. */
  lemma DonatedLive(m: View, n: int, d: int, b: int, gap: int)
    requires WellFormed(m, n) && IsFree(m, b) && 0 < gap < m[b].cb
    requires if b == FIRST then d == FIRST else Before(m, d, b)
    ensures var m1 := Donated(m, d, b, gap);
      && IsFree(m1, b + gap) && End(m1, b + gap) == End(m, b) && m1[b + gap].cb == m[b].cb - gap
      && (forall c :: c in m && m[c].kind.Live? ==> c in m1 && m1[c].kind.Live? && m1[c].cb >= m[c].cb)
      && (forall c :: c in m1 && m1[c].kind.Live? ==> c in m && m[c].kind.Live?)
  {
  }

  lemma PlainGranted(m: View, n: int, at: int, b: int, g: int, cb: nat, align: int, m1: View)
    requires WellFormed(m, n) && WellFormed(m1, n) && align > 0 && cb >= 1
    requires IsFree(m, b) && IsFree(m1, g) && b <= g && End(m1, g) <= End(m, b) && m1[g].cb >= cb
    requires (at + g + 1) % align == 0
    requires forall c :: c in m && m[c].kind.Live? ==> c in m1 && m1[c].kind.Live? && m1[c].cb >= m[c].cb
    requires forall c :: c in m1 && m1[c].kind.Live? ==> c in m && m[c].kind.Live?
    ensures Granted(m, if m1[g].cb >= cb + 2 then Carved(m1, g, cb) else Taken(m1, g), at, b, g, cb, align)
  {
  }

  lemma FrontOf(h: Image, m: View, at: int, b: int) returns (d: int)
    requires Sound(h, m, at) && b in m
    ensures if b == FIRST then d == FIRST else Before(m, d, b)
  {
    HeaderNeighbours(h.s, m, at, b);
    d := if b == FIRST then FIRST else h.s[b].prev - at;
  }

  lemma SizeInMemory(h: Image, m: View, at: int, f: int)
    requires Sound(h, m, at) && IsFree(m, f)
    ensures CacheOk(h.s, m, f)
  {
  }

  /** The free block after the gap was given away, if there was one. */
  lemma AfterGap(m: View, n: int, d: int, b: int, gap: int)
    requires WellFormed(m, n) && IsFree(m, b) && 0 <= gap < m[b].cb
    requires if b == FIRST then d == FIRST else Before(m, d, b)
    ensures var m1 := if gap == 0 then m else Donated(m, d, b, gap);
      && IsFree(m1, b + gap)
      && (forall c :: c in m && m[c].kind.Live? ==> c in m1 && m1[c].kind.Live? && m1[c].cb >= m[c].cb)
  {
  }
}
