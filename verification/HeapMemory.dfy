/** How the blocks of the simple heap (common/alloc/heapsimple.c) sit in memory: block headers
    and free-list links, as predicates over the memory contents, and what each group of link
    updates the allocator makes does to them. */
module HeapMemory {
  import opened HeapView

  /** 32 bytes of heap memory: a block header, the free-list part of a free block, or anything
      a caller may have stored. Pointers are granule addresses, 0 is NULL. */
  datatype Granule =
    | Header(next: int, prev: int, heap: int, isFree: bool)
    | Links(fnext: int, fprev: int, cb: int)
    | Data(word: int)

  /** Heap offset of a pointer when the anchor is at address at; NULL stays 0, and the anchor
      itself is no block. */
  function Off(at: int, p: int): int {
    if p == 0 then 0 else if p == at then -1 else p - at
  }

  ghost function FreeSet(m: View): set<int> {
    set b | b in m && m[b].kind.Free?
  }

  // ----- the block list -----

  /** The header of block b says what the map says, for links relative to address at. */
  ghost predicate HeaderOk(s: seq<Granule>, m: View, at: int, b: int) {
    && b in m && 0 <= b < |s| && s[b].Header?
    && s[b].heap == at
    && s[b].isFree == m[b].kind.Free?
    && (if End(m, b) == |s| then s[b].next == 0 else s[b].next == at + End(m, b))
    && (if b == FIRST then s[b].prev == 0 else Before(m, s[b].prev - at, b))
  }

  /** The block list runs through all headers, forwards and backwards. */
  ghost predicate Chained(s: seq<Granule>, m: View, at: int) {
    && at > 0
    && Tiled(m, |s|)
    && forall b {:trigger HeaderOk(s, m, at, b)} :: b in m ==> HeaderOk(s, m, at, b)
  }

  lemma ChainedFrame(s: seq<Granule>, s': seq<Granule>, m: View, at: int)
    requires Chained(s, m, at) && |s'| == |s|
    requires forall b :: b in m ==> s'[b] == s[b]
    ensures Chained(s', m, at)
  {
    forall b | b in m ensures HeaderOk(s', m, at, b) {
      assert HeaderOk(s, m, at, b);
    }
  }

  // The size cached behind the free block f.
  ghost predicate CacheOk(s: seq<Granule>, m: View, f: int) {
    f in m && 0 <= f && f + 1 < |s| && s[f + 1].Links? && s[f + 1].cb == m[f].cb
  }

  /** The size cached in every free block but x is right. */
  ghost predicate CachedBut(s: seq<Granule>, m: View, x: int) {
    forall f {:trigger CacheOk(s, m, f)} :: f in FreeSet(m) && f != x ==> CacheOk(s, m, f)
  }

  /** Free-list links never sit where a block header sits. */
  lemma LinksApartFromHeaders(m: View, n: int)
    requires WellFormed(m, n)
    ensures InRange(FreeSet(m), n)
    ensures forall f :: f in FreeSet(m) ==> f + 1 !in m
  {
  }

  /** What a header says about the block in front of it and the one behind it. */
  lemma HeaderNeighbours(s: seq<Granule>, m: View, at: int, b: int)
    requires Chained(s, m, at) && b in m
    ensures s[b].Header? && s[b].heap == at && s[b].isFree == m[b].kind.Free?
    ensures if End(m, b) == |s| then s[b].next == 0 else s[b].next == at + End(m, b) && End(m, b) in m && s[b].next != 0
    ensures End(m, b) in m ==> s[End(m, b)].Header? && End(m, b) != FIRST
    ensures if b == FIRST then s[b].prev == 0
      else s[b].prev != 0 && Before(m, s[b].prev - at, b) && s[s[b].prev - at].Header?
  {
    assert HeaderOk(s, m, at, b) && Joined(m, |s|, b);
    if b != FIRST { assert HeaderOk(s, m, at, s[b].prev - at); }
    if End(m, b) in m { assert HeaderOk(s, m, at, End(m, b)); }
  }

  // ----- the free list -----

  /** g is the first element above f, 0 when there is none. */
  ghost predicate NextIn(F: set<int>, f: int, g: int) {
    if g == 0 then forall c :: c in F ==> c <= f
    else g in F && f < g && forall c :: c in F ==> c <= f || g <= c
  }

  /** g is the last element below f, 0 when there is none. */
  ghost predicate PrevIn(F: set<int>, f: int, g: int) {
    if g == 0 then forall c :: c in F ==> f <= c
    else g in F && g < f && forall c :: c in F ==> f <= c || c <= g
  }

  ghost predicate LinksOk(s: seq<Granule>, F: set<int>, at: int, f: int) {
    && 0 <= f && f + 1 < |s| && s[f + 1].Links?
    && NextIn(F, f, Off(at, s[f + 1].fnext))
    && PrevIn(F, f, Off(at, s[f + 1].fprev))
  }

  ghost predicate InRange(F: set<int>, n: int) {
    forall f :: f in F ==> FIRST <= f && f + 1 < n
  }

  /** The free blocks are threaded in address order, from head to tail. */
  ghost predicate Listed(s: seq<Granule>, F: set<int>, at: int, head: int, tail: int) {
    && at > 0
    && InRange(F, |s|)
    && (forall f {:trigger LinksOk(s, F, at, f)} :: f in F ==> LinksOk(s, F, at, f))
    && NextIn(F, 0, Off(at, head))
    && PrevIn(F, |s|, Off(at, tail))
  }

  // The links behind c, changed where they led to f.
  ghost predicate Repointed(s: seq<Granule>, s': seq<Granule>, at: int, f: int, fnext: int, fprev: int, c: int) {
    && 0 <= c && c + 1 < |s| == |s'| && s[c + 1].Links? && s'[c + 1].Links?
    && s'[c + 1].fnext == (if Off(at, s[c + 1].fnext) == f then fnext else s[c + 1].fnext)
    && s'[c + 1].fprev == (if Off(at, s[c + 1].fprev) == f then fprev else s[c + 1].fprev)
  }

  ghost predicate AllRepointed(s: seq<Granule>, s': seq<Granule>,
                               F: set<int>, at: int, f: int, fnext: int, fprev: int) {
    forall c {:trigger Repointed(s, s', at, f, fnext, fprev, c)} :: c in F && c != f ==>
      Repointed(s, s', at, f, fnext, fprev, c)
  }

  lemma ListedFrame(s: seq<Granule>, s': seq<Granule>, F: set<int>, at: int, head: int, tail: int)
    requires Listed(s, F, at, head, tail) && |s'| == |s|
    requires forall i :: 0 < i < |s| && i - 1 in F && s[i].Links? ==>
      s'[i].Links? && s'[i].fnext == s[i].fnext && s'[i].fprev == s[i].fprev
    ensures Listed(s', F, at, head, tail)
  {
    hide NextIn, PrevIn;
    forall f | f in F ensures LinksOk(s', F, at, f) {
      assert LinksOk(s, F, at, f);
      assert f + 1 - 1 in F;
    }
  }

  // ----- unlinking -----

  lemma NextWithout(F: set<int>, f: int, fnext: int, c: int, x: int)
    requires f in F && c != f && f > 0 && NextIn(F, f, fnext) && NextIn(F, c, x)
    ensures NextIn(F - {f}, c, if x == f then fnext else x)
  {
  }

  lemma PrevWithout(F: set<int>, f: int, fprev: int, c: int, x: int)
    requires f in F && c != f && f > 0 && PrevIn(F, f, fprev) && PrevIn(F, c, x)
    ensures PrevIn(F - {f}, c, if x == f then fprev else x)
  {
  }

  /** Unlinking f: whoever pointed at f now points where f pointed. */
  lemma UnlinkedListed(s: seq<Granule>, s': seq<Granule>, F: set<int>, at: int, head: int, tail: int,
                       f: int, fnext: int, fprev: int, head': int, tail': int)
    requires Listed(s, F, at, head, tail) && f in F && |s'| == |s|
    requires s[f + 1].Links? && s[f + 1].fnext == fnext && s[f + 1].fprev == fprev
    requires AllRepointed(s, s', F, at, f, fnext, fprev)
    requires head' == if Off(at, head) == f then fnext else head
    requires tail' == if Off(at, tail) == f then fprev else tail
    ensures Listed(s', F - {f}, at, head', tail')
  {
    assert LinksOk(s, F, at, f);
    var fn, fp := Off(at, fnext), Off(at, fprev);
    forall c | c in F - {f} ensures LinksOk(s', F - {f}, at, c) {
      assert LinksOk(s, F, at, c);
      assert Repointed(s, s', at, f, fnext, fprev, c);
      NextWithout(F, f, fn, c, Off(at, s[c + 1].fnext));
      PrevWithout(F, f, fp, c, Off(at, s[c + 1].fprev));
    }
    NextWithout(F, f, fn, 0, Off(at, head));
    PrevWithout(F, f, fp, |s|, Off(at, tail));
  }

  // ----- moving -----

  /** f and g lie in the same gap between the other elements. */
  ghost predicate SameGap(F: set<int>, f: int, g: int) {
    forall c :: c in F && c != f ==> (c < f && c < g) || (f < c && g < c)
  }

  lemma NextMoved(F: set<int>, f: int, g: int, c: int, x: int)
    requires f in F && f > 0 && g > 0 && SameGap(F, f, g) && NextIn(F, c, x)
    requires c == 0 || c in F
    ensures NextIn(F - {f} + {g}, if c == f then g else c, if x == f then g else x)
  {
  }

  lemma PrevMoved(F: set<int>, f: int, g: int, c: int, x: int, n: int)
    requires f in F && 0 < f < n && 0 < g < n && SameGap(F, f, g) && PrevIn(F, c, x)
    requires c == n || c in F
    ensures PrevIn(F - {f} + {g}, if c == f then g else c, if x == f then g else x)
  {
  }

  lemma MovedLinks(s: seq<Granule>, s': seq<Granule>, F: set<int>, at: int, f: int, g: int, c: int)
    requires at > 0 && InRange(F, |s|) && f in F && c in F && |s'| == |s|
    requires SameGap(F, f, g) && FIRST <= g && g + 1 < |s|
    requires LinksOk(s, F, at, c)
    requires if c == f then s'[g + 1].Links? && s'[g + 1].fnext == s[f + 1].fnext && s'[g + 1].fprev == s[f + 1].fprev
             else Repointed(s, s', at, f, at + g, at + g, c)
    ensures LinksOk(s', F - {f} + {g}, at, if c == f then g else c)
  {
  }

  /** Moving f to g: whoever pointed at f now points at g, and g points where f did. */
  lemma MovedListed(s: seq<Granule>, s': seq<Granule>, F: set<int>, at: int, head: int, tail: int,
                    f: int, g: int, head': int, tail': int)
    requires Listed(s, F, at, head, tail) && f in F && |s'| == |s|
    requires SameGap(F, f, g) && FIRST <= g && g + 1 < |s|
    requires AllRepointed(s, s', F, at, f, at + g, at + g)
    requires s[f + 1].Links? && s'[g + 1].Links?
    requires s'[g + 1].fnext == s[f + 1].fnext && s'[g + 1].fprev == s[f + 1].fprev
    requires head' == if Off(at, head) == f then at + g else head
    requires tail' == if Off(at, tail) == f then at + g else tail
    ensures Listed(s', F - {f} + {g}, at, head', tail')
  {
    hide NextIn, PrevIn;
    var F' := F - {f} + {g};
    forall c | c in F' ensures LinksOk(s', F', at, c) {
      var c0 := if c == g then f else c;
      assert LinksOk(s, F, at, c0);
      assert c0 != f ==> Repointed(s, s', at, f, at + g, at + g, c0);
      MovedLinks(s, s', F, at, f, g, c0);
    }
    NextMoved(F, f, g, 0, Off(at, head));
    PrevMoved(F, f, g, |s|, Off(at, tail), |s|);
  }

  /** The element behind granule g + 1 has links, and so have its neighbours at those links. */
  ghost predicate CanPatch(s: seq<Granule>, at: int, g: int) {
    && 0 <= g && g + 1 < |s| && s[g + 1].Links?
    && var (p, q) := (s[g + 1].fnext, s[g + 1].fprev);
    && (p != 0 ==> g < p - at && p - at + 1 < |s| && s[p - at + 1].Links?)
    && (q != 0 ==> 0 <= q - at < g && s[q - at + 1].Links?)
  }

  /** The memory after the free-list neighbours of g were given new links. */
  ghost function Patched(s: seq<Granule>, at: int, g: int, vnext: int, vprev: int): seq<Granule> {
    if !CanPatch(s, at, g) then s else
    var (p, q) := (s[g + 1].fnext, s[g + 1].fprev);
    var s1 := if p == 0 then s else s[p - at + 1 := s[p - at + 1].(fprev := vprev)];
    if q == 0 then s1 else s1[q - at + 1 := s1[q - at + 1].(fnext := vnext)]
  }

  lemma PatchedLength(s: seq<Granule>, at: int, g: int, vnext: int, vprev: int)
    ensures |Patched(s, at, g, vnext, vprev)| == |s|
  {
  }

  /** The neighbours of a listed element are listed themselves, one on each side. */
  lemma ListedCanPatch(s: seq<Granule>, F: set<int>, at: int, head: int, tail: int, f: int)
    requires Listed(s, F, at, head, tail) && f in F
    ensures CanPatch(s, at, f)
    ensures s[f + 1].fnext != 0 ==> s[f + 1].fnext - at in F
    ensures s[f + 1].fprev != 0 ==> s[f + 1].fprev - at in F
    ensures Off(at, head) == f <==> s[f + 1].fprev == 0
    ensures Off(at, tail) == f <==> s[f + 1].fnext == 0
  {
    assert LinksOk(s, F, at, f);
    var fn, fp := s[f + 1].fnext, s[f + 1].fprev;
    if fn != 0 { assert LinksOk(s, F, at, fn - at); }
    if fp != 0 { assert LinksOk(s, F, at, fp - at); }
    HeadOrPointed(F, f, Off(at, head), Off(at, fp));
    TailOrPointed(F, f, Off(at, tail), Off(at, fn), |s|);
  }

  /** Patching the two neighbours of f is all it takes to repoint the whole list. */
  lemma PatchRepoints(s: seq<Granule>, F: set<int>, at: int, head: int, tail: int, f: int, vnext: int, vprev: int)
    requires Listed(s, F, at, head, tail) && f in F && CanPatch(s, at, f)
    ensures AllRepointed(s, Patched(s, at, f, vnext, vprev), F, at, f, vnext, vprev)
  {
    assert LinksOk(s, F, at, f);
    var s' := Patched(s, at, f, vnext, vprev);
    forall c | c in F && c != f ensures Repointed(s, s', at, f, vnext, vprev, c) {
      assert LinksOk(s, F, at, c);
      OnlyNeighbourPoints(s, F, at, f, c);
      hide NextIn, PrevIn;
    }
  }

  lemma OnlyNeighbourPoints(s: seq<Granule>, F: set<int>, at: int, f: int, c: int)
    requires InRange(F, |s|) && f in F && c in F && c != f
    requires LinksOk(s, F, at, f) && LinksOk(s, F, at, c)
    ensures Off(at, s[c + 1].fnext) == f <==> c == Off(at, s[f + 1].fprev)
    ensures Off(at, s[c + 1].fprev) == f <==> c == Off(at, s[f + 1].fnext)
  {
  }

  lemma HeadOrPointed(F: set<int>, f: int, h: int, p: int)
    requires f in F && (forall k :: k in F ==> k > 0) && NextIn(F, 0, h) && PrevIn(F, f, p)
    ensures h == f <==> p == 0
  {
  }

  lemma TailOrPointed(F: set<int>, f: int, t: int, p: int, n: int)
    requires f in F && (forall k :: k in F ==> 0 < k < n) && PrevIn(F, n, t) && NextIn(F, f, p)
    ensures t == f <==> p == 0
  {
  }

  // Only free-list links of blocks in F were written, and their cached sizes kept.
  ghost predicate OnlyLinks(s: seq<Granule>, s': seq<Granule>, F: set<int>) {
    && |s'| == |s|
    && (forall i :: 0 <= i < |s| && i - 1 !in F ==> s'[i] == s[i])
    && (forall i :: 0 < i < |s| && i - 1 in F ==> s[i].Links? && s'[i].Links? && s'[i].cb == s[i].cb)
  }

  /** s1 is s0 with the links of f copied to g; the other links are where they were. */
  ghost predicate LinksCopied(s0: seq<Granule>, s1: seq<Granule>, F: set<int>, f: int, g: int) {
    && |s1| == |s0| && InRange(F, |s0|) && f in F && FIRST <= g && g + 1 < |s0|
    && SameGap(F, f, g)
    && s0[f + 1].Links? && s1[g + 1].Links?
    && s1[g + 1].fnext == s0[f + 1].fnext && s1[g + 1].fprev == s0[f + 1].fprev
    && forall c :: c in F && c != f ==> s1[c + 1] == s0[c + 1]
  }

  lemma CopiedCanPatch(s0: seq<Granule>, s1: seq<Granule>, F: set<int>, at: int, head: int, tail: int, f: int, g: int)
    requires Listed(s0, F, at, head, tail) && LinksCopied(s0, s1, F, f, g)
    ensures CanPatch(s1, at, g)
  {
    ListedCanPatch(s0, F, at, head, tail, f);
    if s0[f + 1].fnext != 0 { assert s0[f + 1].fnext - at in F; }
    if s0[f + 1].fprev != 0 { assert s0[f + 1].fprev - at in F; }
    hide Listed, NextIn, PrevIn;
  }

  lemma PatchedOnlyLinks(s0: seq<Granule>, s1: seq<Granule>, F: set<int>, at: int, head: int, tail: int, f: int, g: int)
    requires Listed(s0, F, at, head, tail) && LinksCopied(s0, s1, F, f, g) && CanPatch(s1, at, g)
    ensures OnlyLinks(s1, Patched(s1, at, g, at + g, at + g), F - {f})
  {
    ListedCanPatch(s0, F, at, head, tail, f);
    forall c | c in F ensures s0[c + 1].Links? { ListedCanPatch(s0, F, at, head, tail, c); }
    hide Listed, NextIn, PrevIn;
  }

  /** Taking f out: its neighbours are made to point at each other. */
  lemma PatchUnlinks(s: seq<Granule>, F: set<int>, at: int, head: int, tail: int, f: int)
    requires Listed(s, F, at, head, tail) && f in F
    ensures CanPatch(s, at, f)
    ensures OnlyLinks(s, Patched(s, at, f, s[f + 1].fnext, s[f + 1].fprev), F - {f})
    ensures Listed(Patched(s, at, f, s[f + 1].fnext, s[f + 1].fprev), F - {f}, at,
                   if s[f + 1].fprev == 0 then s[f + 1].fnext else head,
                   if s[f + 1].fnext == 0 then s[f + 1].fprev else tail)
  {
    ListedCanPatch(s, F, at, head, tail, f);
    forall c | c in F ensures s[c + 1].Links? { ListedCanPatch(s, F, at, head, tail, c); }
    var fn, fp := s[f + 1].fnext, s[f + 1].fprev;
    hide Listed, NextIn, PrevIn, AllRepointed;
    PatchRepoints(s, F, at, head, tail, f, fn, fp);
    UnlinkedListed(s, Patched(s, at, f, fn, fp), F, at, head, tail, f, fn, fp,
                   if fp == 0 then fn else head, if fn == 0 then fp else tail);
  }

  /** Copying the links of f to g and patching the neighbours moves f to g on the list. */
  lemma PatchAfterCopy(s0: seq<Granule>, s1: seq<Granule>, F: set<int>, at: int, head: int, tail: int, f: int, g: int)
    requires Listed(s0, F, at, head, tail) && LinksCopied(s0, s1, F, f, g) && CanPatch(s1, at, g)
    ensures Listed(Patched(s1, at, g, at + g, at + g), F - {f} + {g}, at,
                   if s1[g + 1].fprev == 0 then at + g else head, if s1[g + 1].fnext == 0 then at + g else tail)
  {
    var s2 := Patched(s1, at, g, at + g, at + g);
    ListedCanPatch(s0, F, at, head, tail, f);
    PatchRepoints(s0, F, at, head, tail, f, at + g, at + g);
    var t := Patched(s0, at, f, at + g, at + g);
    hide Listed, NextIn, PrevIn;
    forall c | c in F && c != f ensures Repointed(s0, s2, at, f, at + g, at + g, c) {
      assert Repointed(s0, t, at, f, at + g, at + g, c);
      assert s2[c + 1] == t[c + 1];
    }
    MovedListed(s0, s2, F, at, head, tail, f, g,
                if s1[g + 1].fprev == 0 then at + g else head, if s1[g + 1].fnext == 0 then at + g else tail);
  }

  // ----- inserting -----

  // The links behind c after p was put between l and r.
  ghost predicate Spliced(s: seq<Granule>, s': seq<Granule>, at: int, l: int, p: int, r: int, c: int) {
    && 0 <= c && c + 1 < |s| == |s'| && s[c + 1].Links? && s'[c + 1].Links?
    && s'[c + 1].fnext == (if c == l then at + p else s[c + 1].fnext)
    && s'[c + 1].fprev == (if c == r then at + p else s[c + 1].fprev)
  }

  lemma NextInserted(F: set<int>, l: int, p: int, r: int, c: int, x: int)
    requires p > 0 && p !in F && NextIn(F, p, r) && PrevIn(F, p, l) && NextIn(F, c, x)
    requires (c in F || c == 0) && forall k :: k in F ==> k > 0
    ensures NextIn(F + {p}, c, if c == l then p else x)
    ensures NextIn(F + {p}, p, r)
  {
  }

  lemma PrevInserted(F: set<int>, l: int, p: int, r: int, c: int, x: int, n: int)
    requires p > 0 && p !in F && NextIn(F, p, r) && PrevIn(F, p, l) && PrevIn(F, c, x)
    requires (c in F || c == n) && p < n && forall k :: k in F ==> 0 < k < n
    ensures PrevIn(F + {p}, c, if c == r || (c == n && r == 0) then p else x)
    ensures PrevIn(F + {p}, p, l)
  {
  }

  lemma InsertedLinks(s: seq<Granule>, s': seq<Granule>, F: set<int>, at: int, l: int, p: int, r: int, c: int)
    requires at > 0 && InRange(F, |s|) && c in F && |s'| == |s|
    requires p !in F && FIRST <= p && p + 1 < |s|
    requires NextIn(F, p, r) && PrevIn(F, p, l)
    requires LinksOk(s, F, at, c) && Spliced(s, s', at, l, p, r, c)
    ensures LinksOk(s', F + {p}, at, c)
  {
  }

  /** Inserting p between its list neighbours l and r. */
  lemma InsertedListed(s: seq<Granule>, s': seq<Granule>, F: set<int>, at: int, head: int, tail: int,
                       l: int, p: int, r: int, head': int, tail': int)
    requires Listed(s, F, at, head, tail) && |s'| == |s|
    requires p !in F && FIRST <= p && p + 1 < |s|
    requires NextIn(F, p, r) && PrevIn(F, p, l)
    requires forall c {:trigger Spliced(s, s', at, l, p, r, c)} :: c in F ==> Spliced(s, s', at, l, p, r, c)
    requires s'[p + 1].Links? && Off(at, s'[p + 1].fnext) == r && Off(at, s'[p + 1].fprev) == l
    requires head' == if l == 0 then at + p else head
    requires tail' == if r == 0 then at + p else tail
    ensures Listed(s', F + {p}, at, head', tail')
  {
    hide NextIn, PrevIn;
    NextInserted(F, l, p, r, 0, Off(at, head));
    PrevInserted(F, l, p, r, |s|, Off(at, tail), |s|);
    forall c | c in F + {p} ensures LinksOk(s', F + {p}, at, c) {
      if c != p {
        assert LinksOk(s, F, at, c) && Spliced(s, s', at, l, p, r, c);
        InsertedLinks(s, s', F, at, l, p, r, c);
      }
    }
  }

  // ----- the block list under splitting and joining -----

  /** A block is untouched, and so is the size of the one in front of it. */
  lemma KeptHeader(s: seq<Granule>, s': seq<Granule>, m: View, m': View, at: int, c: int)
    requires HeaderOk(s, m, at, c) && |s'| == |s| && s'[c] == s[c] && c in m' && m'[c] == m[c]
    requires c == FIRST || (s[c].prev - at in m' && m'[s[c].prev - at].cb == m[s[c].prev - at].cb)
    ensures HeaderOk(s', m', at, c)
  {
  }

  /** Block b is cut at g into two. */
  lemma SplitChained(s: seq<Granule>, s': seq<Granule>, m: View, m': View, at: int, b: int, g: int)
    requires Chained(s, m, at) && |s'| == |s| && b in m && b < g < End(m, b)
    requires Tiled(m', |s|) && m'.Keys == m.Keys + {g}
    requires End(m', b) == g && End(m', g) == End(m, b)
    requires forall c :: c in m && c != b ==> m'[c] == m[c]
    requires s[b].Header? && s'[b] == Header(at + g, s[b].prev, at, m'[b].kind.Free?)
    requires s'[g] == Header(s[b].next, at + b, at, m'[g].kind.Free?)
    requires End(m, b) < |s| ==> s[End(m, b)].Header? && s'[End(m, b)] == s[End(m, b)].(prev := at + g)
    requires forall c :: c in m && c != b && c != End(m, b) ==> s'[c] == s[c]
    ensures Chained(s', m', at)
  {
    assert HeaderOk(s, m, at, b) && FIRST <= b;
    hide Tiled;
    assert HeaderOk(s', m', at, b) && HeaderOk(s', m', at, g);
    forall c | c in m' && c != b && c != g ensures HeaderOk(s', m', at, c) {
      assert HeaderOk(s, m, at, c);
      if c != End(m, b) { KeptHeader(s, s', m, m', at, c); }
    }
  }

  /** Block b changes its flag and nothing else. */
  lemma FlaggedChained(s: seq<Granule>, s': seq<Granule>, m: View, m': View, at: int, b: int)
    requires Chained(s, m, at) && |s'| == |s| && b in m && Tiled(m', |s|)
    requires m'.Keys == m.Keys && m'[b].cb == m[b].cb && s[b].Header?
    requires s'[b] == s[b].(isFree := m'[b].kind.Free?)
    requires forall c :: c in m && c != b ==> m'[c] == m[c] && s'[c] == s[c]
    ensures Chained(s', m', at)
  {
    forall c | c in m' ensures HeaderOk(s', m', at, c) {
      assert HeaderOk(s, m, at, c);
    }
  }

  /** Block r is joined to the block b in front of it. */
  lemma JoinedChained(s: seq<Granule>, s': seq<Granule>, m: View, m': View, at: int, b: int, r: int)
    requires Chained(s, m, at) && |s'| == |s| && b in m && r in m && End(m, b) == r
    requires Tiled(m', |s|) && m'.Keys == m.Keys - {r}
    requires End(m', b) == End(m, r)
    requires forall c :: c in m && c != b && c != r ==> m'[c] == m[c]
    requires s[b].Header? && s[r].Header? && s'[b] == Header(s[r].next, s[b].prev, at, m'[b].kind.Free?)
    requires End(m, r) < |s| ==> s[End(m, r)].Header? && s'[End(m, r)] == s[End(m, r)].(prev := at + b)
    requires forall c :: c in m && c != b && c != r && c != End(m, r) ==> s'[c] == s[c]
    ensures Chained(s', m', at)
  {
    assert HeaderOk(s, m, at, r) && HeaderOk(s, m, at, b) && FIRST <= b < r < End(m, r);
    hide Tiled;
    forall c | c in m' ensures HeaderOk(s', m', at, c) {
      assert HeaderOk(s, m, at, c);
    }
  }

  /** The border between blocks d and b moves up from b to g. */
  lemma ShiftedChained(s: seq<Granule>, s': seq<Granule>, m: View, m': View, at: int, d: int, b: int, g: int)
    requires Chained(s, m, at) && |s'| == |s| && d in m && b in m && End(m, d) == b && b < g < End(m, b)
    requires Tiled(m', |s|) && m'.Keys == m.Keys - {b} + {g}
    requires End(m', d) == g && End(m', g) == End(m, b)
    requires m'[d].kind == m[d].kind && m'[g].kind == m[b].kind
    requires forall c :: c in m && c != d && c != b ==> m'[c] == m[c]
    requires s[d].Header? && s'[d] == s[d].(next := at + g)
    requires s[b].Header? && s'[g] == s[b].(prev := at + d)
    requires End(m, b) < |s| ==> s[End(m, b)].Header? && s'[End(m, b)] == s[End(m, b)].(prev := at + g)
    requires forall c :: c in m && c != d && c != b && c != End(m, b) ==> s'[c] == s[c]
    ensures Chained(s', m', at)
  {
    assert HeaderOk(s, m, at, d) && HeaderOk(s, m, at, b) && FIRST <= d < b && g !in m;
    assert End(m, b) in m ==> HeaderOk(s, m, at, End(m, b));
    hide Tiled, HeaderOk;
    ShiftedBorder(s, s', m, m', at, d, b, g);
    ShiftedOthers(s, s', m, m', at, d, b, g);
    hide End;
  }

  lemma ShiftedOthers(s: seq<Granule>, s': seq<Granule>, m: View, m': View, at: int, d: int, b: int, g: int)
    requires Chained(s, m, at) && |s'| == |s| && d in m && b in m && End(m, d) == b
    requires m'.Keys == m.Keys - {b} + {g} && forall c :: c in m && c != d && c != b ==> m'[c] == m[c]
    requires forall c :: c in m && c != d && c != b && c != End(m, b) ==> s'[c] == s[c]
    ensures forall c :: c in m && c != d && c != b && c != End(m, b) ==> HeaderOk(s', m', at, c)
  {
    hide Tiled;
    forall c | c in m && c != d && c != b && c != End(m, b) ensures HeaderOk(s', m', at, c) {
      assert HeaderOk(s, m, at, c);
      hide HeaderOk;
      ShiftedOther(s, s', m, m', at, d, b, g, c);
    }
  }

  lemma ShiftedBorder(s: seq<Granule>, s': seq<Granule>, m: View, m': View, at: int, d: int, b: int, g: int)
    requires HeaderOk(s, m, at, d) && HeaderOk(s, m, at, b) && |s'| == |s| && End(m, d) == b
    requires FIRST <= d < b < g < End(m, b)
    requires End(m, b) <= |s| && (End(m, b) in m ==> HeaderOk(s, m, at, End(m, b)))
    requires m'.Keys == m.Keys - {b} + {g} && End(m', d) == g && End(m', g) == End(m, b)
    requires m'[d].kind == m[d].kind && m'[g].kind == m[b].kind
    requires forall c :: c in m && c != d && c != b ==> m'[c] == m[c]
    requires s'[d] == s[d].(next := at + g) && s'[g] == s[b].(prev := at + d)
    requires End(m, b) < |s| ==> s[End(m, b)].Header? && s'[End(m, b)] == s[End(m, b)].(prev := at + g)
    ensures HeaderOk(s', m', at, d) && HeaderOk(s', m', at, g)
    ensures End(m, b) in m ==> HeaderOk(s', m', at, End(m, b))
  {
  }

  lemma ShiftedOther(s: seq<Granule>, s': seq<Granule>, m: View, m': View, at: int, d: int, b: int, g: int, c: int)
    requires HeaderOk(s, m, at, c) && |s'| == |s| && d in m && b in m && End(m, d) == b
    requires m'.Keys == m.Keys - {b} + {g} && forall c :: c in m && c != d && c != b ==> m'[c] == m[c]
    requires c in m && c != d && c != b && c != End(m, b) && s'[c] == s[c]
    ensures HeaderOk(s', m', at, c)
  {
    KeptHeader(s, s', m, m', at, c);
  }

  // ----- what callers store -----

  /** Granule a belongs to the payload of a live block. */
  ghost predicate InPayload(m: View, a: int) {
    exists b :: b in m && m[b].kind.Live? && b < a < End(m, b)
  }

  ghost predicate PayloadsKept(m: View, s: seq<Granule>, s': seq<Granule>) {
    && |s'| == |s|
    && forall a :: 0 <= a < |s| && InPayload(m, a) ==> s'[a] == s[a]
  }

  lemma PayloadsSame(m: View, s: seq<Granule>)
    ensures PayloadsKept(m, s, s)
  {
  }

  lemma PayloadsGrow(m: View, m1: View, s0: seq<Granule>, s1: seq<Granule>, s2: seq<Granule>)
    requires PayloadsKept(m, s0, s1) && PayloadsKept(m1, s1, s2)
    requires forall c :: c in m && m[c].kind.Live? ==> c in m1 && m1[c].kind.Live? && m1[c].cb >= m[c].cb
    ensures PayloadsKept(m, s0, s2)
  {
  }

  /** Headers and the insides of free blocks are nobody's payload. */
  lemma OutsidePayloads(m: View, n: int)
    requires Tiled(m, n)
    ensures forall b :: b in m ==> !InPayload(m, b)
    ensures forall f, a :: IsFree(m, f) && f < a < End(m, f) ==> !InPayload(m, a)
  {
  }

  // ----- the free set under the map changes -----

  lemma DonatedFreeSet(m: View, n: int, d: int, f: int, gap: int)
    requires WellFormed(m, n) && IsFree(m, f) && 0 < gap < m[f].cb
    requires if f == FIRST then d == FIRST else Before(m, d, f)
    ensures FreeSet(Donated(m, d, f, gap)) == FreeSet(m) - {f} + {f + gap}
    ensures SameGap(FreeSet(m), f, f + gap)
  {
  }

  lemma CarvedFreeSet(m: View, n: int, b: int, cb: nat)
    requires WellFormed(m, n) && IsFree(m, b) && cb >= 1 && m[b].cb >= cb + 2
    ensures FreeSet(Carved(m, b, cb)) == FreeSet(m) - {b} + {b + 1 + cb}
    ensures SameGap(FreeSet(m), b, b + 1 + cb)
  {
  }

  // ----- the whole heap -----

  /** The memory, both ends of the free list and the free counter. */
  datatype Image = Image(s: seq<Granule>, head: int, tail: int, cbFree: int)

  /** Memory, list ends and free counter agree with the block map. */
  ghost predicate Sound(h: Image, m: View, at: int) {
    && WellFormed(m, |h.s|)
    && Chained(h.s, m, at)
    && Listed(h.s, FreeSet(m), at, h.head, h.tail)
    && CachedBut(h.s, m, 0)
    && h.cbFree == FreeSum(m, FIRST, |h.s|)
  }

  lemma SoundShape(h: Image, m: View, at: int)
    requires Sound(h, m, at)
    ensures WellFormed(m, |h.s|) && at > 0 && h.cbFree == FreeSum(m, FIRST, |h.s|)
  {
  }

  /** The links behind g are in place and its list neighbours are made to point at it. */
  ghost function Relinked(h: Image, at: int, g: int): Image {
    if !CanPatch(h.s, at, g) then h else
    var v := at + g;
    Image(Patched(h.s, at, g, v, v),
          if h.s[g + 1].fprev == 0 then v else h.head,
          if h.s[g + 1].fnext == 0 then v else h.tail,
          h.cbFree)
  }
  /** Headers may move and free-list links be rewritten without anyone's payload changing. */
  lemma RelinkedFrames(s0: seq<Granule>, s1: seq<Granule>, s2: seq<Granule>, m: View, m': View, at: int, f: int)
    requires PayloadsKept(m, s0, s1) && OnlyLinks(s1, s2, FreeSet(m) - {f})
    requires WellFormed(m, |s0|) && WellFormed(m', |s0|) && Chained(s1, m', at)
    requires FreeSet(m) - {f} <= FreeSet(m')
    ensures Chained(s2, m', at) && PayloadsKept(m, s0, s2)
  {
    LinksApartFromHeaders(m', |s0|);
    ChainedFrame(s1, s2, m', at);
    OutsidePayloads(m, |s0|);
  }

  /** The allocator's data and the callers' data never share a granule. */
  lemma StoredSound(h: Image, h': Image, m: View, at: int, a: int)
    requires Sound(h, m, at) && InPayload(m, a) && |h'.s| == |h.s|
    requires h'.head == h.head && h'.tail == h.tail && h'.cbFree == h.cbFree
    requires forall i :: 0 <= i < |h.s| && i != a ==> h'.s[i] == h.s[i]
    ensures Sound(h', m, at)
  {
    OutsidePayloads(m, |h.s|);
    LinksApartFromHeaders(m, |h.s|);
    assert a - 1 in FreeSet(m) ==> !InPayload(m, (a - 1) + 1);
    hide Chained, Listed, CachedBut, FreeSum, InPayload, NextIn, PrevIn;
    ChainedFrame(h.s, h'.s, m, at);
    ListedFrame(h.s, h'.s, FreeSet(m), at, h.head, h.tail);
    StoredCached(h.s, h'.s, m, a);
  }

  lemma StoredCached(s: seq<Granule>, s': seq<Granule>, m: View, a: int)
    requires CachedBut(s, m, 0) && |s'| == |s| && a - 1 !in FreeSet(m)
    requires forall i :: 0 <= i < |s| && i != a ==> s'[i] == s[i]
    ensures CachedBut(s', m, 0)
  {
    forall f | f in FreeSet(m) && f != 0 ensures CacheOk(s', m, f) {
      assert CacheOk(s, m, f);
    }
  }

  // ----- the walk of the consistency check -----

  /** The walk has reached offset k (the heap end when done): pPrev is the block before, pPrevFree
      the last free block before. */
  ghost predicate Checked(h: Image, m: View, at: int, k: int, pPrev: int, pPrevFree: int) {
    && (if k == FIRST then pPrev == 0 else Before(m, pPrev - at, k))
    && PrevIn(FreeSet(m), k, Off(at, pPrevFree)) && pPrevFree != at
  }

  lemma CheckStart(h: Image, m: View, at: int)
    requires Sound(h, m, at)
    ensures FIRST in m && FIRST < |h.s| && Checked(h, m, at, FIRST, 0, 0) && at > 0
  {
  }

  lemma CheckStep(h: Image, m: View, at: int, k: int, pPrev: int, pPrevFree: int)
    requires Sound(h, m, at) && k in m && Checked(h, m, at, k, pPrev, pPrevFree)
    ensures FIRST <= k < End(m, k) <= |h.s| && (End(m, k) == |h.s| || End(m, k) in m)
    ensures h.s[k].Header? && h.s[k].heap == at && h.s[k].isFree == IsFree(m, k)
    ensures h.s[k].next == if End(m, k) == |h.s| then 0 else at + End(m, k)
    ensures if h.s[k].prev != 0 then at + FIRST <= h.s[k].prev < at + k else k == FIRST
    ensures pPrev == 0 || pPrev == h.s[k].prev
    ensures IsFree(m, k) ==> k + 1 < |h.s| && h.s[k + 1].Links? && h.s[k + 1].cb == End(m, k) - k - 1
    ensures IsFree(m, k) ==> h.s[k + 1].fprev == pPrevFree && (pPrevFree != 0 || h.head == at + k)
    ensures IsFree(m, k) ==> h.head <= at + k <= h.tail
    ensures Checked(h, m, at, End(m, k), at + k, if IsFree(m, k) then at + k else pPrevFree)
  {
    hide Chained, CachedBut, FreeSum, Listed;
    HeaderNeighbours(h.s, m, at, k);
    SoundShape(h, m, at);
    if k != FIRST { FrontUnique(m, |h.s|, pPrev - at, h.s[k].prev - at, k); }
    CheckFree(h, m, at, k, pPrev, pPrevFree);
  }

  lemma CheckFree(h: Image, m: View, at: int, k: int, pPrev: int, pPrevFree: int)
    requires Sound(h, m, at) && k in m && Checked(h, m, at, k, pPrev, pPrevFree)
    ensures IsFree(m, k) ==> k + 1 < |h.s| && h.s[k + 1].Links? && h.s[k + 1].cb == End(m, k) - k - 1
    ensures IsFree(m, k) ==> h.s[k + 1].fprev == pPrevFree && (pPrevFree != 0 || h.head == at + k)
    ensures IsFree(m, k) ==> h.head <= at + k <= h.tail
    ensures PrevIn(FreeSet(m), End(m, k), Off(at, if IsFree(m, k) then at + k else pPrevFree))
  {
    if IsFree(m, k) {
      assert k in FreeSet(m) && LinksOk(h.s, FreeSet(m), at, k) && CacheOk(h.s, m, k);
    }
  }

  lemma FrontUnique(m: View, n: int, d: int, e: int, b: int)
    requires Tiled(m, n) && Before(m, d, b) && Before(m, e, b)
    ensures d == e
  {
  }

  lemma CheckEnd(h: Image, m: View, at: int, pPrev: int, pPrevFree: int)
    requires Sound(h, m, at) && Checked(h, m, at, |h.s|, pPrev, pPrevFree)
    ensures h.tail == pPrevFree
  {
  }
}
