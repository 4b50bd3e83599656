/** The steps of freeing (common/alloc/heapsimple.c) on the heap memory: putting the block on
    the free list, joining it with free neighbours, and the final size. */
module HeapFree {
  import opened HeapView
  import opened HeapMemory

  /** The heap while block x is being freed: x is listed, but its cached size and its share of
      the free counter are still missing, and it may touch other free blocks. */
  ghost predicate Pending(h: Image, m: View, at: int, x: int) {
    && Tiled(m, |h.s|) && Roomy(m)
    && Chained(h.s, m, at)
    && Listed(h.s, FreeSet(m), at, h.head, h.tail)
    && CachedBut(h.s, m, x)
    && IsFree(m, x)
    && h.cbFree == FreeSum(m, FIRST, |h.s|) - m[x].cb
  }

  lemma PendingFacts(h: Image, m: View, at: int, x: int)
    requires Pending(h, m, at, x)
    ensures InRange(FreeSet(m), |h.s|) && x in FreeSet(m) && x - 1 !in FreeSet(m)
    ensures forall c :: c in FreeSet(m) ==> c + 1 !in m && !InPayload(m, c + 1) && h.s[c + 1].Links?
    ensures forall b :: b in m ==> !InPayload(m, b)
    ensures FIRST <= x < End(m, x) <= |h.s| && m[x].cb >= 1
  {
    forall c | c in FreeSet(m) ensures h.s[c + 1].Links? {
      assert LinksOk(h.s, FreeSet(m), at, c);
    }
    OutsidePayloads(m, |h.s|);
    hide Chained, Listed, CachedBut, FreeSum;
  }

  // ----- putting the block on the list -----

  /** Block p, flagged free and linked between l and r (0 for none). */
  ghost function Inserted(h: Image, at: int, p: int, l: int, r: int): Image {
    if !CanInsert(h.s, p, l, r) then h else
    var s1 := h.s[p := h.s[p].(isFree := true)]
      [p + 1 := Links(if r == 0 then 0 else at + r, if l == 0 then 0 else at + l, 0)];
    var s2 := if l == 0 then s1 else s1[l + 1 := s1[l + 1].(fnext := at + p)];
    var s3 := if r == 0 then s2 else s2[r + 1 := s2[r + 1].(fprev := at + p)];
    Image(s3, if l == 0 then at + p else h.head, if r == 0 then at + p else h.tail, h.cbFree)
  }

  ghost predicate CanInsert(s: seq<Granule>, p: int, l: int, r: int) {
    && 0 <= p && p + 1 < |s| && s[p].Header?
    && (l != 0 ==> 0 <= l < p && s[l + 1].Links? && l + 1 != p)
    && (r != 0 ==> p < r && r + 1 < |s| && s[r + 1].Links? && r != p + 1)
  }

  /** p is a live block, l and r the free blocks around it. */
  ghost predicate Between(m: View, p: int, l: int, r: int) {
    && p in m && m[p].kind.Live?
    && NextIn(FreeSet(m), p, r) && PrevIn(FreeSet(m), p, l)
  }

  lemma InsertReady(h: Image, m: View, at: int, p: int, l: int, r: int)
    requires Sound(h, m, at) && Between(m, p, l, r)
    ensures CanInsert(h.s, p, l, r)
    ensures m[p].cb >= 1 && End(m, p) <= |h.s| && FIRST <= p
  {
    HeaderNeighbours(h.s, m, at, p);
    if l != 0 { assert LinksOk(h.s, FreeSet(m), at, l); }
    if r != 0 { assert LinksOk(h.s, FreeSet(m), at, r); }
    LinksApartFromHeaders(m, |h.s|);
  }

  lemma InsertSplices(h: Image, m: View, at: int, p: int, l: int, r: int)
    requires Sound(h, m, at) && Between(m, p, l, r)
    ensures var h' := Inserted(h, at, p, l, r);
      Listed(h'.s, FreeSet(m) + {p}, at, h'.head, h'.tail)
  {
    var F, h' := FreeSet(m), Inserted(h, at, p, l, r);
    InsertReady(h, m, at, p, l, r);
    InsertGranules(h, m, at, p, l, r);
    hide Chained, CachedBut, NextIn, PrevIn, CanInsert, Tiled, WellFormed;
    forall c | c in F ensures Spliced(h.s, h'.s, at, l, p, r, c) {
      assert LinksOk(h.s, F, at, c);
    }
    InsertedListed(h.s, h'.s, F, at, h.head, h.tail, l, p, r, h'.head, h'.tail);
  }

  /** Where the links of listed blocks sit relative to the inserted one. */
  lemma InsertGranules(h: Image, m: View, at: int, p: int, l: int, r: int)
    requires Sound(h, m, at) && Between(m, p, l, r)
    ensures p !in FreeSet(m) && InRange(FreeSet(m), |h.s|)
    ensures forall c :: c in FreeSet(m) ==> c + 1 != p && c != p && c > 0
    ensures l != 0 ==> l in FreeSet(m)
    ensures r != 0 ==> r in FreeSet(m)
  {
  }

  /** The block p alone turned free. */
  ghost function Freed(m: View, p: int): View
    requires p in m
  {
    Merged(m, p, End(m, p))
  }

  lemma FreedMap(m: View, n: int, p: int)
    requires WellFormed(m, n) && p in m && m[p].kind.Live?
    ensures Freed(m, p) == m[p := Blk(m[p].cb, Free)]
    ensures Tiled(Freed(m, p), n) && Roomy(Freed(m, p))
    ensures FreeSet(Freed(m, p)) == FreeSet(m) + {p}
  {
    assert Joined(m, n, p);
    MergedTiled(m, n, p, End(m, p));
  }

  lemma FreedSum(m: View, n: int, p: int)
    requires WellFormed(m, n) && p in m && m[p].kind.Live?
    ensures FreeSum(Freed(m, p), FIRST, n) == FreeSum(m, FIRST, n) + m[p].cb
  {
    FreedMap(m, n, p);
    FreeSumDelta(m, Freed(m, p), p, p + 1, FIRST, n);
  }

  /** Which granules an insertion writes, and what it keeps of them. */
  lemma InsertedAt(h: Image, at: int, p: int, l: int, r: int)
    requires CanInsert(h.s, p, l, r)
    ensures var s' := Inserted(h, at, p, l, r).s;
      && |s'| == |h.s| && s'[p] == h.s[p].(isFree := true)
      && (forall i :: 0 <= i < |s'| && i != p && i != p + 1 && (l == 0 || i != l + 1) && (r == 0 || i != r + 1) ==>
          s'[i] == h.s[i])
      && (forall i :: 0 <= i < |s'| && i != p && i != p + 1 && h.s[i].Links? ==> s'[i].Links? && s'[i].cb == h.s[i].cb)
      && Inserted(h, at, p, l, r).cbFree == h.cbFree
  {
  }

  lemma InsertChained(h: Image, m: View, at: int, p: int, l: int, r: int)
    requires Sound(h, m, at) && Between(m, p, l, r)
    ensures Chained(Inserted(h, at, p, l, r).s, Freed(m, p), at)
    ensures PayloadsKept(Freed(m, p), h.s, Inserted(h, at, p, l, r).s)
  {
    hide Chained, Listed, CachedBut, NextIn, PrevIn, FreeSum, Inserted, Freed, CanInsert;
    var h', m' := Inserted(h, at, p, l, r), Freed(m, p);
    InsertReady(h, m, at, p, l, r);
    InsertGranules(h, m, at, p, l, r);
    InsertedAt(h, at, p, l, r);
    FreedMap(m, |h.s|, p);
    InsertUntouched(m, m', |h.s|, p, l, r);
    hide Tiled, WellFormed, InPayload, Roomy, FreeSet;
    FlaggedChained(h.s, h'.s, m, m', at, p);
  }

  lemma InsertUntouched(m: View, m': View, n: int, p: int, l: int, r: int)
    requires WellFormed(m, n) && p in m && m[p].kind.Live? && m' == m[p := Blk(m[p].cb, Free)]
    requires Tiled(m', n)
    requires (l != 0 ==> l in FreeSet(m)) && (r != 0 ==> r in FreeSet(m))
    ensures p + 1 !in m && (l != 0 ==> l + 1 !in m) && (r != 0 ==> r + 1 !in m)
    ensures !InPayload(m', p) && !InPayload(m', p + 1)
    ensures (l != 0 ==> !InPayload(m', l + 1)) && (r != 0 ==> !InPayload(m', r + 1))
  {
  }

  lemma InsertCached(h: Image, m: View, at: int, p: int, l: int, r: int)
    requires Sound(h, m, at) && Between(m, p, l, r)
    ensures CachedBut(Inserted(h, at, p, l, r).s, Freed(m, p), p)
  {
    hide Chained, Listed, NextIn, PrevIn, Tiled, FreeSum, Inserted, Freed, CanInsert, Coalesced;
    var h', m' := Inserted(h, at, p, l, r), Freed(m, p);
    InsertReady(h, m, at, p, l, r);
    InsertGranules(h, m, at, p, l, r);
    InsertedAt(h, at, p, l, r);
    FreedMap(m, |h.s|, p);
    forall c | c in FreeSet(m') && c != p ensures CacheOk(h'.s, m', c) {
      assert c in FreeSet(m) && CacheOk(h.s, m, c);
    }
  }

  /** Linking the block into the free list leaves everything but its size in order. */
  lemma InsertPending(h: Image, m: View, at: int, p: int, l: int, r: int)
    requires Sound(h, m, at) && Between(m, p, l, r)
    ensures Pending(Inserted(h, at, p, l, r), Freed(m, p), at, p)
    ensures PayloadsKept(Freed(m, p), h.s, Inserted(h, at, p, l, r).s)
  {
    hide Inserted, CanInsert, Freed;
    FreedMap(m, |h.s|, p);
    FreedSum(m, |h.s|, p);
    InsertReady(h, m, at, p, l, r);
    InsertedAt(h, at, p, l, r);
    InsertSplices(h, m, at, p, l, r);
    InsertChained(h, m, at, p, l, r);
    InsertCached(h, m, at, p, l, r);
    hide Chained, Listed, CachedBut, Tiled, Roomy, FreeSum, Between, PayloadsKept, FreeSet;
  }

  // ----- joining with the free block on the left -----

  ghost predicate CanJoin(s: seq<Granule>, m: View, at: int, l: int, p: int) {
    && l in m && p in m && End(m, l) == p && 0 <= l && End(m, p) <= |s|
    && s[l].Header? && s[p].Header? && s[l].heap == at && s[l].isFree == m[l].kind.Free?
    && s[p].next == (if End(m, p) == |s| then 0 else at + End(m, p))
    && (End(m, p) < |s| ==> s[End(m, p)].Header? && s[p].next != 0)
  }

  /** Block l reaches over block p. */
  ghost function JoinedHeaders(s: seq<Granule>, m: View, at: int, l: int, p: int): (s': seq<Granule>)
    ensures |s'| == |s|
  {
    if !CanJoin(s, m, at, l, p) then s else
    var s1 := s[l := s[l].(next := s[p].next)];
    if End(m, p) < |s| then s1[End(m, p) := s1[End(m, p)].(prev := at + l)] else s1
  }

  lemma JoinReady(h: Image, m: View, at: int, l: int, p: int)
    requires Tiled(m, |h.s|) && Chained(h.s, m, at) && Before(m, l, p) && p in m
    ensures CanJoin(h.s, m, at, l, p)
  {
    HeaderNeighbours(h.s, m, at, l);
    HeaderNeighbours(h.s, m, at, p);
  }

  lemma JoinChained(s: seq<Granule>, m: View, at: int, l: int, p: int)
    requires Tiled(m, |s|) && Chained(s, m, at) && CanJoin(s, m, at, l, p) && IsFree(m, l)
    ensures Tiled(Merged(m, l, End(m, p)), |s|)
    ensures Chained(JoinedHeaders(s, m, at, l, p), Merged(m, l, End(m, p)), at)
  {
    assert Joined(m, |s|, p);
    MergedTiled(m, |s|, l, End(m, p));
    JoinedChained(s, JoinedHeaders(s, m, at, l, p), m, Merged(m, l, End(m, p)), at, l, p);
  }

  ghost function LeftJoined(h: Image, m: View, at: int, l: int, p: int): Image {
    if !(CanJoin(h.s, m, at, l, p) && l + 1 < |h.s| && h.s[l + 1].Links?) then h else
    h.(s := JoinedHeaders(h.s, m, at, l, p), cbFree := h.cbFree - h.s[l + 1].cb)
  }

  lemma LeftFacts(h: Image, m: View, at: int, l: int, p: int)
    requires Sound(h, m, at) && p in m && m[p].kind.Live? && IsFree(m, l) && Before(m, l, p)
    ensures var m' := Merged(m, l, End(m, p));
      && FreeSet(m') == FreeSet(m) && Roomy(m') && IsFree(m', l)
      && (forall c :: c in FreeSet(m') && c != l ==> c in m && c in m' && m'[c] == m[c])
      && m'[l].cb == End(m, p) - l - 1
      && FreeSum(m', FIRST, |h.s|) == FreeSum(m, FIRST, |h.s|) - m[l].cb + m'[l].cb
      && (forall c :: c in FreeSet(m) ==> c + 1 !in m && c + 1 != l)
      && InRange(FreeSet(m), |h.s|) && l in FreeSet(m)
      && CacheOk(h.s, m, l)
  {
    assert l in FreeSet(m) && CacheOk(h.s, m, l);
    hide Chained, Listed, CachedBut, FreeSum, NextIn, PrevIn, CacheOk;
    LinksApartFromHeaders(m, |h.s|);
    LeftSum(m, |h.s|, l, p);
    LeftMap(m, |h.s|, l, p);
  }

  lemma LeftMap(m: View, n: int, l: int, p: int)
    requires WellFormed(m, n) && p in m && m[p].kind.Live? && IsFree(m, l) && Before(m, l, p)
    ensures var m' := Merged(m, l, End(m, p));
      && FreeSet(m') == FreeSet(m) && Roomy(m') && IsFree(m', l)
      && (forall c :: c in FreeSet(m') && c != l ==> c in m && c in m' && m'[c] == m[c])
  {
  }

  lemma LeftSum(m: View, n: int, l: int, p: int)
    requires WellFormed(m, n) && p in m && m[p].kind.Live? && IsFree(m, l) && Before(m, l, p)
    ensures Merged(m, l, End(m, p))[l].cb == End(m, p) - l - 1
    ensures FreeSum(Merged(m, l, End(m, p)), FIRST, n) == FreeSum(m, FIRST, n) - m[l].cb + (End(m, p) - l - 1)
  {
    FreeSumDelta(m, Merged(m, l, End(m, p)), l, p, FIRST, n);
  }

  lemma LeftPayloads(m: View, n: int, l: int, p: int)
    requires WellFormed(m, n) && p in m && IsFree(m, l) && Before(m, l, p)
    ensures forall b :: b in m ==> !InPayload(Merged(m, l, End(m, p)), b)
  {
  }

  /** Joining with the block on the left leaves everything but its size in order. */
  lemma LeftPending(h: Image, m: View, at: int, l: int, p: int)
    requires Sound(h, m, at) && p in m && m[p].kind.Live? && IsFree(m, l) && Before(m, l, p)
    ensures CanJoin(h.s, m, at, l, p) && l + 1 < |h.s| && h.s[l + 1].Links?
    ensures Pending(LeftJoined(h, m, at, l, p), Merged(m, l, End(m, p)), at, l)
    ensures PayloadsKept(Merged(m, l, End(m, p)), h.s, LeftJoined(h, m, at, l, p).s)
  {
    hide Chained, Listed, CachedBut, FreeSum, FreeSet, Roomy, Coalesced, Merged, InPayload;
    LeftFacts(h, m, at, l, p);
    LeftPayloads(m, |h.s|, l, p);
    JoinReady(h, m, at, l, p);
    JoinChained(h.s, m, at, l, p);
    var h', m' := LeftJoined(h, m, at, l, p), Merged(m, l, End(m, p));
    assert Joined(m, |h.s|, p);
    forall i | 0 < i < |h.s| && i - 1 in FreeSet(m) ensures h'.s[i] == h.s[i] {
      assert (i - 1) + 1 !in m;
    }
    ListedFrame(h.s, h'.s, FreeSet(m), at, h.head, h.tail);
    KeptCached(h.s, h'.s, m, m', l);
  }

  /** Cached sizes carry over to a map that differs in the block x only. */
  lemma KeptCached(s: seq<Granule>, s': seq<Granule>, m: View, m': View, x: int)
    requires CachedBut(s, m, 0) || CachedBut(s, m, x)
    requires |s'| == |s| && FreeSet(m') <= FreeSet(m) && forall c :: c in FreeSet(m) ==> c > 0
    requires forall c :: c in FreeSet(m') && c != x ==> c in m && c in m' && m'[c] == m[c]
    requires forall i :: 0 < i < |s| && i - 1 in FreeSet(m') && i - 1 != x && s[i].Links? ==>
      s'[i].Links? && s'[i].cb == s[i].cb
    ensures CachedBut(s', m', x)
  {
    forall c | c in FreeSet(m') && c != x ensures CacheOk(s', m', c) {
      assert CacheOk(s, m, c) && (c + 1) - 1 == c;
    }
  }

  // ----- joining with the free block on the right -----

  ghost function RightJoined(h: Image, m: View, at: int, x: int, r: int): Image {
    if !(CanJoin(h.s, m, at, x, r) && CanPatch(h.s, at, r)) then h else
    var (fn, fp) := (h.s[r + 1].fnext, h.s[r + 1].fprev);
    var s1 := JoinedHeaders(h.s, m, at, x, r);
    Image(Patched(s1, at, r, fn, fp), h.head, if fn == 0 then fp else h.tail, h.cbFree - h.s[r + 1].cb)
  }

  lemma RightFacts(h: Image, m: View, at: int, x: int, r: int)
    requires Pending(h, m, at, x) && r == End(m, x) && IsFree(m, r)
    ensures var m' := Merged(m, x, End(m, r));
      && FreeSet(m') == FreeSet(m) - {r} && Roomy(m') && Tiled(m', |h.s|) && m'.Keys <= m.Keys
      && IsFree(m', x) && m'[x].cb == End(m, r) - x - 1
      && FreeSum(m', FIRST, |h.s|) == FreeSum(m, FIRST, |h.s|) - m[x].cb - m[r].cb + m'[x].cb
      && (forall c :: c in FreeSet(m') && c != x ==> c in m && c in m' && m'[c] == m[c])
  {
    hide Chained, Listed, CachedBut, FreeSum;
    RightSum(m, |h.s|, x, r);
    RightMap(m, |h.s|, x, r);
  }

  lemma RightMap(m: View, n: int, x: int, r: int)
    requires Tiled(m, n) && Roomy(m) && IsFree(m, x) && r == End(m, x) && IsFree(m, r)
    ensures var m' := Merged(m, x, End(m, r));
      && FreeSet(m') == FreeSet(m) - {r} && Roomy(m') && Tiled(m', n) && m'.Keys <= m.Keys && IsFree(m', x)
      && (forall c :: c in FreeSet(m') && c != x ==> c in m && c in m' && m'[c] == m[c])
  {
    assert Joined(m, n, r);
    MergedTiled(m, n, x, End(m, r));
    RightKeys(m, n, x, r);
    hide Joined, Tiled;
  }

  lemma RightKeys(m: View, n: int, x: int, r: int)
    requires Tiled(m, n) && x in m && r == End(m, x) && r in m
    ensures Merged(m, x, End(m, r)).Keys == m.Keys - {r}
  {
    hide Joined;
    assert forall c :: c in m && x < c < End(m, r) ==> c == r;
  }

  lemma RightSum(m: View, n: int, x: int, r: int)
    requires Tiled(m, n) && IsFree(m, x) && r == End(m, x) && IsFree(m, r)
    ensures Merged(m, x, End(m, r))[x].cb == End(m, r) - x - 1
    ensures FreeSum(Merged(m, x, End(m, r)), FIRST, n)
         == FreeSum(m, FIRST, n) - m[x].cb - m[r].cb + End(m, r) - x - 1
  {
    FreeSumDelta(m, Merged(m, x, End(m, r)), x, r, FIRST, n);
  }

  /** Nothing inside the merged blocks is payload. */
  lemma RightPayloads(h: Image, m: View, at: int, x: int, r: int)
    requires Pending(h, m, at, x) && r == End(m, x) && IsFree(m, r)
    ensures forall b :: b in m ==> !InPayload(Merged(m, x, End(m, r)), b)
    ensures forall c :: c in FreeSet(m) ==> !InPayload(Merged(m, x, End(m, r)), c + 1)
  {
    assert Joined(m, |h.s|, r);
    hide Chained, Listed, CachedBut, FreeSum;
    MergedTiled(m, |h.s|, x, End(m, r));
    OutsidePayloads(Merged(m, x, End(m, r)), |h.s|);
  }

  /** Blocks x and r can be joined on the block list, and r comes right after x on the free list. */
  ghost predicate CanJoinRight(h: Image, m: View, at: int, x: int, r: int) {
    && CanJoin(h.s, m, at, x, r)
    && CanPatch(h.s, at, r) && h.s[r + 1].fprev == at + x
    && var s1 := JoinedHeaders(h.s, m, at, x, r); CanPatch(s1, at, r) && s1[r + 1] == h.s[r + 1]
  }

  lemma RightJoinedIs(h: Image, m: View, at: int, x: int, r: int)
    requires CanJoinRight(h, m, at, x, r)
    ensures CanJoin(h.s, m, at, x, r)
    ensures var s1, links := JoinedHeaders(h.s, m, at, x, r), h.s[r + 1];
      && 0 <= r && r + 1 < |h.s| && links.Links? && links.fprev == at + x && CanPatch(s1, at, r) && s1[r + 1] == links
      && Patched(s1, at, r, links.fnext, at + x)[r + 1] == links
      && RightJoined(h, m, at, x, r) == Image(Patched(s1, at, r, links.fnext, at + x), h.head,
                                              if links.fnext == 0 then at + x else h.tail, h.cbFree - links.cb)
  {
  }

  lemma RightPatches(h: Image, m: View, at: int, x: int, r: int)
    requires Pending(h, m, at, x) && r == End(m, x) && IsFree(m, r)
    ensures CanPatch(h.s, at, r) && r in FreeSet(m)
    ensures var s1 := JoinedHeaders(h.s, m, at, x, r);
      CanPatch(s1, at, r) && s1[r + 1] == h.s[r + 1] && Listed(s1, FreeSet(m), at, h.head, h.tail)
  {
    hide Chained, CachedBut, JoinedHeaders, NextIn, PrevIn, Listed;
    PendingFacts(h, m, at, x);
    var F, s1 := FreeSet(m), JoinedHeaders(h.s, m, at, x, r);
    JoinedHeadersFrame(h.s, m, at, x, r);
    ListedFrame(h.s, s1, F, at, h.head, h.tail);
    ListedCanPatch(h.s, F, at, h.head, h.tail, r);
    ListedCanPatch(s1, F, at, h.head, h.tail, r);
    assert (r + 1) - 1 in F;
  }

  /** Right neighbours on the block list are neighbours on the free list. */
  lemma RightLinks(h: Image, m: View, at: int, x: int, r: int)
    requires Pending(h, m, at, x) && r == End(m, x) && IsFree(m, r)
    ensures CanJoinRight(h, m, at, x, r) && CacheOk(h.s, m, r)
    ensures at + x > 0
  {
    JoinReady(h, m, at, x, r);
    RightPatches(h, m, at, x, r);
    hide Chained, CachedBut, JoinedHeaders, CanPatch;
    assert r in FreeSet(m) && x in FreeSet(m);
    assert LinksOk(h.s, FreeSet(m), at, r);
    RightCached(h, m, at, x, r);
  }

  lemma RightCached(h: Image, m: View, at: int, x: int, r: int)
    requires CachedBut(h.s, m, x) && IsFree(m, r) && r != x
    ensures CacheOk(h.s, m, r)
  {
  }

  lemma RightPending(h: Image, m: View, at: int, x: int, r: int)
    requires Pending(h, m, at, x) && r == End(m, x) && IsFree(m, r)
    ensures Pending(RightJoined(h, m, at, x, r), Merged(m, x, End(m, r)), at, x)
    ensures PayloadsKept(Merged(m, x, End(m, r)), h.s, RightJoined(h, m, at, x, r).s)
  {
    hide Chained, Listed, CachedBut, FreeSum, FreeSet, Roomy, Coalesced, Merged, InPayload, Patched, OnlyLinks,
      JoinedHeaders, CanPatch, CanJoin, NextIn, PrevIn;
    RightLinks(h, m, at, x, r);
    RightPatches(h, m, at, x, r);
    RightFacts(h, m, at, x, r);
    PendingFacts(h, m, at, x);
    JoinChained(h.s, m, at, x, r);
    var F, s1 := FreeSet(m), JoinedHeaders(h.s, m, at, x, r);
    PatchUnlinks(s1, F, at, h.head, h.tail, r);
    RightFinished(h, s1, RightJoined(h, m, at, x, r).s, m, at, x, r);
  }

  lemma JoinedHeadersFrame(s: seq<Granule>, m: View, at: int, l: int, p: int)
    requires Tiled(m, |s|) && forall c :: c in FreeSet(m) ==> c + 1 !in m
    ensures forall i :: 0 < i < |s| && i - 1 in FreeSet(m) ==> JoinedHeaders(s, m, at, l, p)[i] == s[i]
    ensures forall i :: 0 <= i < |s| && i !in m ==> JoinedHeaders(s, m, at, l, p)[i] == s[i]
  {
    var s' := JoinedHeaders(s, m, at, l, p);
    if p in m { assert Joined(m, |s|, p); }
    forall i | 0 < i < |s| && i - 1 in FreeSet(m) ensures s'[i] == s[i] {
      assert (i - 1) + 1 !in m;
    }
  }

  lemma RightFinished(h: Image, s1: seq<Granule>, s2: seq<Granule>, m: View, at: int, x: int, r: int)
    requires Pending(h, m, at, x) && r == End(m, x) && IsFree(m, r)
    requires s1 == JoinedHeaders(h.s, m, at, x, r) && OnlyLinks(s1, s2, FreeSet(m) - {r})
    requires Chained(s1, Merged(m, x, End(m, r)), at)
    ensures Chained(s2, Merged(m, x, End(m, r)), at)
    ensures PayloadsKept(Merged(m, x, End(m, r)), h.s, s2)
    ensures CachedBut(s2, Merged(m, x, End(m, r)), x)
  {
    hide Chained, Listed, CachedBut, FreeSum, Roomy, JoinedHeaders, InPayload, OnlyLinks, PayloadsKept, FreeSet, Merged;
    RightFacts(h, m, at, x, r);
    RightPayloads(h, m, at, x, r);
    PendingFacts(h, m, at, x);
    JoinedHeadersFrame(h.s, m, at, x, r);
    hide Tiled, Pending, IsFree;
    RightRelinked(h.s, s1, s2, m, Merged(m, x, End(m, r)), at, x, r);
  }

  lemma RightRelinked(s: seq<Granule>, s1: seq<Granule>, s2: seq<Granule>, m: View, m': View, at: int, x: int, r: int)
    requires |s1| == |s| && Chained(s1, m', at) && OnlyLinks(s1, s2, FreeSet(m) - {r}) && CachedBut(s, m, x)
    requires m'.Keys <= m.Keys && FreeSet(m') == FreeSet(m) - {r} && InRange(FreeSet(m), |s|)
    requires forall c :: c in FreeSet(m') && c != x ==> c in m && c in m' && m'[c] == m[c]
    requires forall c :: c in FreeSet(m) ==> c + 1 !in m && !InPayload(m', c + 1)
    requires forall b :: b in m ==> !InPayload(m', b)
    requires forall i :: 0 < i < |s| && i - 1 in FreeSet(m) ==> s1[i] == s[i]
    requires forall i :: 0 <= i < |s| && i !in m ==> s1[i] == s[i]
    ensures Chained(s2, m', at) && PayloadsKept(m', s, s2) && CachedBut(s2, m', x)
  {
    assert forall b :: b in m' ==> 0 <= b < |s|;
    hide Tiled, HeaderOk, InPayload, FreeSet, CachedBut, Roomy;
    LinksNotHeaders(m, m', s1, s2, r);
    KeptCached(s, s2, m, m', x);
    hide CacheOk, OnlyLinks;
    ChainedFrame(s1, s2, m', at);
  }

  lemma LinksNotHeaders(m: View, m': View, s1: seq<Granule>, s2: seq<Granule>, r: int)
    requires OnlyLinks(s1, s2, FreeSet(m) - {r}) && m'.Keys <= m.Keys
    requires forall c :: c in FreeSet(m) ==> c + 1 !in m && !InPayload(m', c + 1)
    ensures forall b :: b in m' && 0 <= b < |s1| ==> s2[b] == s1[b]
    ensures forall a :: InPayload(m', a) && 0 <= a < |s1| ==> s2[a] == s1[a]
  {
  }

  // ----- the final size -----

  /** The size of x is written back and counted. */
  ghost function Sized(h: Image, x: int, cb: int): Image {
    if !(0 <= x && x + 1 < |h.s| && h.s[x + 1].Links?) then h else
    h.(s := h.s[x + 1 := h.s[x + 1].(cb := cb)], cbFree := h.cbFree + cb)
  }

  lemma SizedSound(h: Image, m: View, at: int, x: int)
    requires Pending(h, m, at, x) && Coalesced(m)
    ensures 0 <= x && x + 1 < |h.s| && h.s[x + 1].Links?
    ensures Sound(Sized(h, x, m[x].cb), m, at) && PayloadsKept(m, h.s, Sized(h, x, m[x].cb).s)
  {
    var h' := Sized(h, x, m[x].cb);
    hide Chained, Listed, CachedBut, InPayload, NextIn, PrevIn;
    PendingFacts(h, m, at, x);
    ChainedFrame(h.s, h'.s, m, at);
    ListedFrame(h.s, h'.s, FreeSet(m), at, h.head, h.tail);
    SizedCached(h.s, h'.s, m, x);
  }

  lemma SizedCached(s: seq<Granule>, s': seq<Granule>, m: View, x: int)
    requires CachedBut(s, m, x) && IsFree(m, x) && 0 <= x && x + 1 < |s| && s[x + 1].Links?
    requires s' == s[x + 1 := s[x + 1].(cb := m[x].cb)]
    ensures CachedBut(s', m, 0)
  {
    forall c | c in FreeSet(m) && c != 0 ensures CacheOk(s', m, c) {
      if c != x { assert CacheOk(s, m, c); }
    }
  }

  // ----- all of it -----

  /** Joining left first and right afterwards gives the released map. */
  lemma ReleasedInSteps(m: View, n: int, p: int)
    requires WellFormed(m, n) && p in m && m[p].kind.Live?
    ensures var x, m1 := LeftEdge(m, p), Merged(m, LeftEdge(m, p), End(m, p));
      && x in m1 && x < End(m, p) && End(m1, x) == End(m, p)
      && (IsFree(m1, End(m, p)) <==> IsFree(m, End(m, p)))
      && Released(m, p) == (if IsFree(m1, End(m, p)) then Merged(m1, x, End(m1, End(m, p))) else m1)
  {
  }

  /** The next free block above p touches the pending block exactly when it starts at its end. */
  lemma RightTouches(h: Image, m: View, at: int, x: int, r: int)
    requires Pending(h, m, at, x) && IsFree(m, r) && r != x
    ensures 0 <= r < |h.s| && h.s[r].Header?
    ensures h.s[r].prev == at + x <==> End(m, x) == r
  {
    HeaderNeighbours(h.s, m, at, r);
    HeaderNeighbours(h.s, m, at, x);
  }

  // ----- finding the neighbours -----

  /** No block strictly between p and q is free; q is a block pointer or NULL. */
  ghost predicate Scanned(m: View, n: int, at: int, p: int, q: int) {
    && (q != 0 ==> p < q - at < n && q - at in m)
    && forall c :: c in FreeSet(m) && c > p ==> q != 0 && q - at <= c
  }

  lemma ScanStep(h: Image, m: View, at: int, p: int, q: int)
    requires Sound(h, m, at) && q - at in m
    requires (q - at == p || (Scanned(m, |h.s|, at, p, q) && q != 0 && !IsFree(m, q - at)))
    ensures 0 <= q - at < |h.s| && h.s[q - at].Header? && h.s[q - at].isFree == IsFree(m, q - at)
    ensures Scanned(m, |h.s|, at, p, h.s[q - at].next)
    ensures h.s[q - at].next != 0 ==> q < h.s[q - at].next < at + |h.s|
    ensures q < at + |h.s|
  {
    HeaderNeighbours(h.s, m, at, q - at);
  }

  lemma ScanHeader(h: Image, m: View, at: int, p: int, q: int)
    requires Sound(h, m, at) && Scanned(m, |h.s|, at, p, q) && q != 0
    ensures h.s[q - at].Header? && h.s[q - at].isFree == IsFree(m, q - at)
  {
    HeaderNeighbours(h.s, m, at, q - at);
  }

  /** The scan ended: left of the free block found, or at the tail, is the free block below p. */
  lemma ScanEnd(h: Image, m: View, at: int, p: int, q: int, l: int)
    requires Sound(h, m, at) && p in m && !m[p].kind.Pad? && Scanned(m, |h.s|, at, p, q)
    requires q != 0 ==> IsFree(m, q - at)
    ensures q != 0 ==> 0 <= q - at && q - at + 1 < |h.s| && h.s[q - at + 1].Links?
    ensures (if q == 0 then l == h.tail else l == h.s[q - at + 1].fprev) ==>
      if m[p].kind.Free? then l == at + p else Between(m, p, Off(at, l), Off(at, q)) && l != at && q != at
  {
    if q != 0 { assert q - at in FreeSet(m) && LinksOk(h.s, FreeSet(m), at, q - at); }
    hide Chained, CachedBut, FreeSum;
    if m[p].kind.Free? { assert p in FreeSet(m); }
  }

  /** With an empty free list there is nothing on either side. */
  lemma ScanNone(h: Image, m: View, at: int, p: int)
    requires Sound(h, m, at) && p in m && !m[p].kind.Pad? && h.tail == 0
    ensures m[p].kind.Live? && Between(m, p, 0, 0) && at > 0
  {
    assert p !in FreeSet(m);
  }

  /** The left neighbour on the free list touches p exactly when its header says so. */
  lemma LeftTouches(h: Image, m: View, at: int, p: int, l: int, r: int)
    requires Sound(h, m, at) && Between(m, p, l, r)
    ensures LeftEdge(m, p) == (if l != 0 && IsFree(m, l) && Before(m, l, p) then l else p)
    ensures l != 0 ==> 0 <= l < |h.s| && IsFree(m, l) && h.s[l].Header? && (h.s[l].next == at + p <==> Before(m, l, p))
    ensures l != 0 && Before(m, l, p) ==> l + 1 != p && l + 1 != End(m, p)
  {
    if l != 0 { HeaderNeighbours(h.s, m, at, l); }
    if HasFreeLeft(m, p) {
      var d :| IsFree(m, d) && Before(m, d, p);
      assert d in FreeSet(m);
      LeftEdgeIs(m, |h.s|, d, p);
    }
  }

  /** What is on the right of the block once it was linked in or joined to the left. */
  lemma RightOf(m: View, n: int, p: int, l: int, r: int)
    requires WellFormed(m, n) && Between(m, p, l, r)
    ensures var m1, x := Merged(m, LeftEdge(m, p), End(m, p)), LeftEdge(m, p);
      && x in m1
      && (r != 0 ==> IsFree(m1, r) && r != x)
      && (IsFree(m1, End(m1, x)) <==> r != 0 && r == End(m1, x))
      && Released(m, p) == (if IsFree(m1, End(m1, x)) then Merged(m1, x, End(m1, End(m1, x))) else m1)
  {
    ReleasedEdges(m, n, p);
    ReleasedInSteps(m, n, p);
    var e := End(m, p);
    assert IsFree(m, e) <==> e in FreeSet(m);
    assert r != 0 ==> r in FreeSet(m);
  }

  lemma PayloadsCompose(m: View, m': View, s0: seq<Granule>, s1: seq<Granule>, s2: seq<Granule>)
    requires PayloadsKept(m, s0, s1) && PayloadsKept(m', s1, s2)
    requires forall b :: b in m' && m'[b].kind.Live? ==> b in m && m[b] == m'[b]
    ensures PayloadsKept(m', s0, s2)
  {
  }

  /** Merging makes no block live and touches no live block outside. */
  lemma MergedLive(m: View, lo: int, hi: int)
    ensures forall b :: b in Merged(m, lo, hi) && Merged(m, lo, hi)[b].kind.Live? ==>
      b in m && m[b] == Merged(m, lo, hi)[b]
  {
  }
}
