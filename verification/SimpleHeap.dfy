/** The simple heap of common/alloc/heapsimple.c on the memory it manages. */
module SimpleHeap {
  import opened HeapView
  import opened HeapMemory
  import opened HeapAlloc
  import opened HeapFree
  import opened HeapMove
  import opened HeapWords
  import opened HeapRuns

  /** NULL, the block handed out, or Wild: the search accepted a block that cannot hold what was
      asked for (Misfit). Either the block is smaller than its alignment gap, and the code would
      go on to write a header at this address, outside that block; or rounding wrapped the size
      to 0, and the code would hand out a block here that may have no payload at all. The model
      stops there. */
  datatype AllocResult = Null | Block(p: int) | Wild(p: int)

  /** What first fit answers to a request in granules, and what it leaves of the map. */
  ghost predicate UnitsAllocated(m: View, m': View, at: int, r: AllocResult, b: int, cb: nat, align: nat)
    requires align > 0
  {
    && (r.Wild? <==> Misfit(m, at, cb, align))
    && match r
      case Null => m' == m && NothingFits(m, at, cb, align)
      case Wild(p) => m' == m && Picked(m, at, b, cb, align) && p == at + b + Gap(at, b, align)
      case Block(p) =>
        && cb >= 1 && Picked(m, at, b, cb, align) && p == at + b + Gap(at, b, align)
        && Granted(m, m', at, b, p - at, cb, align) && IsAllocated(m, m', at, b, cb, align)
  }

  /** The same for a request in bytes: a block is the lowest place of all that has room for it on
      the alignment asked for, and not much larger; NULL means that there is none. In granules it
      is the step of a run (HeapRuns). */
  ghost predicate BytesAllocated(m: View, m': View, at: int, r: AllocResult, b: int, cb: nat, cbAlignment: nat) {
    var u, a := RoundedSize(cb) / 32, RoundedAlignment(cbAlignment) / 32;
    && u >= 0 && a > 0 && (r.Wild? <==> Misfit(m, at, u, a))
    && (cb <= TWO64 - 32 && !r.Wild? ==>
        m' == Apply(m, at, Allocate((Needed(cb) + 31) / 32, if cbAlignment <= 32 then 1 else cbAlignment / 32)))
    && match r
      case Null => m' == m && NoPlace(m, at, cb, cbAlignment) && NothingFits(m, at, u, a)
      case Wild(_) => m' == m && (cbAlignment > 32 || cb > TWO64 - 32)
      case Block(p) =>
        && IsLowestPlace(m, at, p, cb, cbAlignment) && p % 32 == 0
        && var q := p / 32 - 1 - at;
          Granted(m, m', at, b, q, u, a) && q in m' && Needed(cb) <= 32 * m'[q].cb < Needed(cb) + 64
  }

  /** From the header of a block in granules to its payload in bytes. */
  function InBytes(r: AllocResult): AllocResult {
    match r
    case Null => Null
    case Block(p) => Block(32 * (p + 1))
    case Wild(p) => Wild(32 * (p + 1))
  }

  class Heap {
    const mem: array<Granule>
    var base: int
    var pvEnd: int
    var cbFree: int
    var pFreeHead: int
    var pFreeTail: int
    // The block map the memory represents.
    ghost var m: View

    ghost function Img(): Image
      reads this, mem
    {
      Image(mem[..], pFreeHead, pFreeTail, cbFree)
    }

    /** Memory, lists and counters agree with the block map, for links relative to at. */
    ghost predicate ValidAt(at: int)
      reads this, mem
    {
      Sound(Img(), m, at) && pvEnd == at + mem.Length
    }

    ghost predicate Valid()
      reads this, mem
    {
      ValidAt(base)
    }

    // ----- initialization -----

    constructor (pvMemory: nat, cbMemory: nat)
      requires InitAccepts(pvMemory, cbMemory) && pvMemory < TWO64 && cbMemory < TWO64
      ensures Valid() && fresh(mem)
      ensures 32 * base == pvMemory + (32 - pvMemory % 32) % 32
      ensures pvMemory <= 32 * base && 32 * (base + mem.Length) <= pvMemory + cbMemory < 32 * (base + mem.Length) + 32
      ensures m == FreshMap(mem.Length) && mem.Length >= 127 && base >= 128
    {
      InitAcceptsExactly(pvMemory, cbMemory);
      var off := if pvMemory % 32 != 0 then 32 - pvMemory % 32 else 0;
      var n := (cbMemory - off) / 32;
      var anchor := (pvMemory + off) / 32;
      base := anchor;
      mem := new Granule[n];
      pvEnd := anchor + n;
      cbFree := n - 1 - FIRST;
      pFreeHead := anchor + FIRST;
      pFreeTail := anchor + FIRST;
      m := FreshMap(n);
      new;
      mem[FIRST] := Header(0, 0, base, true);
      mem[FIRST + 1] := Links(0, 0, cbFree);
      FreshSound(Img(), base);
    }

    static lemma FreshSound(h: Image, at: int)
      requires |h.s| >= 4 && at > 0
      requires h.s[FIRST] == Header(0, 0, at, true) && h.s[FIRST + 1] == Links(0, 0, |h.s| - 3)
      requires h.head == h.tail == at + FIRST && h.cbFree == |h.s| - 3
      ensures Sound(h, FreshMap(|h.s|), at)
    {
      var m := FreshMap(|h.s|);
      assert HeaderOk(h.s, m, at, FIRST) && CacheOk(h.s, m, FIRST);
      assert FreeSet(m) == {FIRST};
      assert LinksOk(h.s, FreeSet(m), at, FIRST);
      assert Joined(m, |h.s|, FIRST) && Apart(m, FIRST);
      FreeSumDelta(map[], m, FIRST, FIRST + 1, FIRST, |h.s|);
      NoFreeSum(FIRST, |h.s|);
    }

    static lemma {:induction false} NoFreeSum(lo: int, hi: int)
      ensures FreeSum(map[], lo, hi) == 0
      decreases hi - lo
    {
      if lo < hi { NoFreeSum(lo + 1, hi); }
    }

    /** RTHeapSimpleInit: fails exactly on ranges below a page, at an address that is no valid
        pointer, or wrapping. */
    static method Init(pvMemory: nat, cbMemory: nat) returns (heap: Heap?)
      requires pvMemory < TWO64 && cbMemory < TWO64
      ensures heap == null <==>
        cbMemory < 4096 || !(0x1000 <= pvMemory < TWO47 || TWO64 - TWO47 <= pvMemory < TWO64 - 0x1000)
        || pvMemory + cbMemory > TWO64
      ensures heap != null ==> fresh(heap) && heap.Valid() && heap.m == FreshMap(heap.mem.Length)
      ensures heap != null ==> pvMemory <= 32 * heap.base && 32 * (heap.base + heap.mem.Length) <= pvMemory + cbMemory
    {
      InitAcceptsExactly(pvMemory, cbMemory);
      if InitAccepts(pvMemory, cbMemory) {
        heap := new Heap(pvMemory, cbMemory);
      } else {
        heap := null;
      }
    }

    // ----- parts of allocation -----

    /** Points the free-list neighbours of a block that was put in place at pNew to it. */
    method PatchFreeNeighbours(pNew: int)
      requires CanPatch(mem[..], base, pNew - base)
      modifies mem, this`pFreeHead, this`pFreeTail
      ensures Img() == Relinked(old(Img()), base, pNew - base)
    {
      var g := pNew - base;
      var pNext, pPrev := mem[g + 1].fnext, mem[g + 1].fprev;
      if pNext != 0 {
        mem[pNext - base + 1] := mem[pNext - base + 1].(fprev := pNew);
      } else {
        pFreeTail := pNew;
      }
      if pPrev != 0 {
        mem[pPrev - base + 1] := mem[pPrev - base + 1].(fnext := pNew);
      } else {
        pFreeHead := pNew;
      }
    }

    /** Lets the block in front end at pNew; without one, makes padding at the heap start. */
    method ExtendFront(pFront: int, pNew: int) returns (pPrev: int)
      requires FIRST < mem.Length
      requires pFront != 0 ==> 0 <= pFront - base < mem.Length && mem[pFront - base].Header?
      modifies mem
      ensures pPrev == if pFront != 0 then pFront else base + FIRST
      ensures mem[..] == old(mem[..])[pPrev - base :=
        if pFront != 0 then old(mem[pFront - base]).(next := pNew) else Header(pNew, 0, base, false)]
    {
      pPrev := pFront;
      if pPrev != 0 {
        mem[pPrev - base] := mem[pPrev - base].(next := pNew);
      } else {
        pPrev := base + FIRST;
        mem[FIRST] := Header(pNew, 0, base, false);
      }
    }

    /** Recreates a free block at pFree from the copy of its header and links, and tells the
        block behind it. */
    method Recreate(pFree: int, header: Granule, links: Granule, pPrev: int)
      requires 0 <= pFree - base && pFree - base + 1 < mem.Length && header.Header?
      requires header.next != 0 ==>
        pFree - base + 1 < header.next - base < mem.Length && mem[header.next - base].Header?
      modifies mem
      ensures mem[..] == (var s1 := old(mem[..])[pFree - base := header.(prev := pPrev)][pFree - base + 1 := links];
        if header.next == 0 then s1 else s1[header.next - base := s1[header.next - base].(prev := pFree)])
    {
      mem[pFree - base] := header;
      mem[pFree - base + 1] := links;
      if header.next != 0 {
        mem[header.next - base] := mem[header.next - base].(prev := pFree);
      }
      mem[pFree - base] := mem[pFree - base].(prev := pPrev);
    }

    /** First half of alignment donation: the header moves up, the block in front grows. */
    method MoveHeaderUp(pFree: int, offAlign: int, ghost d: int) returns (pNew: int)
      requires CanMoveUp(mem[..], m, base, d, pFree - base, offAlign)
      modifies mem, this`cbFree
      ensures pNew == pFree + offAlign
      ensures Img() == MovedUpImage(old(Img()), m, base, d, pFree - base, offAlign)
    {
      hide MovedUp;
      MovedUpInParts(mem[..], m, base, d, pFree - base, offAlign);
      var f := pFree - base;
      var header, links := mem[f], mem[f + 1];
      pNew := pFree + offAlign;
      var pPrev := ExtendFront(header.prev, pNew);
      cbFree := cbFree - offAlign;
      Recreate(pNew, header, links, pPrev);
      mem[pNew - base + 1] := mem[pNew - base + 1].(cb := links.cb - offAlign);
    }

    /** Alignment donation: the free block moves up by offAlign granules, which go to the block
        in front of it or become padding at the heap start. */
    method Donate(pFree: int, offAlign: int) returns (pNew: int, ghost d: int)
      requires Valid() && IsFree(m, pFree - base) && 0 < offAlign < m[pFree - base].cb
      modifies this, mem
      ensures Valid() && base == old(base) && pNew == pFree + offAlign
      ensures if pFree - base == FIRST then d == FIRST else Before(old(m), d, pFree - base)
      ensures m == Donated(old(m), d, pFree - base, offAlign)
      ensures PayloadsKept(old(m), old(mem[..]), mem[..])
    {
      hide Sound, CanPatch, Relinked, MovedUpImage, CanMoveUp, PayloadsKept, Donated, FreeSet, MovedUp;
      ghost var h, f := Img(), pFree - base;
      d := MoveUpSetup(h, m, base, f, offAlign);
      pNew := MoveHeaderUp(pFree, offAlign, d);
      DonateHalfway(h, m, base, d, f, offAlign);
      PatchFreeNeighbours(pNew);
      DonateSound(h, m, base, d, f, offAlign);
      m := Donated(m, d, f, offAlign);
    }

    /** Writes the header and the links of the free block that a split leaves behind. */
    method SplitOff(pFree: int, cb: nat) returns (pNew: int)
      requires CanCarve(mem[..], m, base, pFree - base, cb)
      modifies mem
      ensures pNew == pFree + cb + 1
      ensures Img() == SplitUpImage(old(Img()), m, base, pFree - base, cb)
    {
      var f := pFree - base;
      pNew := pFree + cb + 1;
      var g := pNew - base;
      mem[g] := Header(mem[f].next, pFree, base, true);
      if mem[f].next != 0 {
        mem[mem[f].next - base] := mem[mem[f].next - base].(prev := pNew);
      }
      mem[g + 1] := Links(mem[f + 1].fnext, mem[f + 1].fprev, 0);
    }

    /** Splits the free block: its low cb granules become a used block, the rest stays free. */
    method Carve(pFree: int, cb: nat)
      requires Valid() && IsFree(m, pFree - base) && cb >= 1 && m[pFree - base].cb >= cb + 2
      modifies this, mem
      ensures Valid() && base == old(base)
      ensures m == Carved(old(m), pFree - base, cb)
      ensures PayloadsKept(old(m), old(mem[..]), mem[..])
    {
      hide Sound, CanPatch, Relinked, CanCarve, CanSeal, Sealed, PayloadsKept, Carved, FreeSet, SplitUpImage;
      ghost var h, f := Img(), pFree - base;
      CarveSetup(h, m, base, f, cb);
      var pNew := SplitOff(pFree, cb);
      CarveHalfway(h, m, base, f, cb);
      PatchFreeNeighbours(pNew);
      CarveSound(h, m, base, f, cb);
      CarveSealable(h, m, base, f, cb);
      Seal(pFree, pNew, m[f].cb - cb - 1);
      m := Carved(m, f, cb);
    }

    /** Gives the new free block its size and turns the old one into a used block. */
    method Seal(pFree: int, pNew: int, ghost cb: nat)
      requires CanSeal(mem[..], base, pvEnd, pFree - base, pNew - base, cb)
      modifies mem, this`cbFree
      ensures Img() == Sealed(old(Img()), base, pFree - base, pNew - base, cb)
    {
      var f, g := pFree - base, pNew - base;
      mem[g + 1] := mem[g + 1].(cb := (if mem[g].next != 0 then mem[g].next else pvEnd) - pNew - 1);
      mem[f] := mem[f].(isFree := false);
      mem[f] := mem[f].(next := pNew);
      cbFree := cbFree - mem[f + 1].cb;
      cbFree := cbFree + mem[g + 1].cb;
    }

    /** Takes the whole free block out of the free list and converts it to a used block. */
    method Take(pFree: int)
      requires Valid() && IsFree(m, pFree - base)
      modifies this, mem
      ensures Valid() && base == old(base)
      ensures m == Taken(old(m), pFree - base)
      ensures PayloadsKept(old(m), old(mem[..]), mem[..])
    {
      hide Sound, PayloadsKept, FreeSet, Taken;
      ghost var h, f := Img(), pFree - base;
      TakeSound(h, m, base, f);
      Unlink(pFree);
      m := Taken(m, f);
    }

    method Unlink(pFree: int)
      requires CanPatch(mem[..], base, pFree - base) && mem[pFree - base].Header?
      modifies mem, this`pFreeHead, this`pFreeTail, this`cbFree
      ensures Img() == TakenImage(old(Img()), base, pFree - base)
    {
      var f := pFree - base;
      var pNext, pPrev := mem[f + 1].fnext, mem[f + 1].fprev;
      if pNext != 0 {
        mem[pNext - base + 1] := mem[pNext - base + 1].(fprev := pPrev);
      } else {
        pFreeTail := pPrev;
      }
      if pPrev != 0 {
        mem[pPrev - base + 1] := mem[pPrev - base + 1].(fnext := pNext);
      } else {
        pFreeHead := pNext;
      }
      cbFree := cbFree - mem[f + 1].cb;
      mem[f] := mem[f].(isFree := false);
    }

    /** The closest free blocks around pBlock, found by walking the blocks to its right. */
    method FreeNeighbours(pBlock: int) returns (pLeft: int, pRight: int)
      requires Valid() && pBlock - base in m && !m[pBlock - base].kind.Pad?
      ensures if m[pBlock - base].kind.Free? then pLeft == pBlock
        else Between(m, pBlock - base, Off(base, pLeft), Off(base, pRight)) && pLeft != base && pRight != base
    {
      hide Sound, Scanned, Between;
      ghost var p, h := pBlock - base, Img();
      pLeft, pRight := 0, 0;
      if pFreeTail != 0 {
        ScanStep(h, m, base, p, pBlock);
        pRight := mem[pBlock - base].next;
        while pRight != 0 && !IsFlaggedFree(pRight, p)
          invariant Scanned(m, mem.Length, base, p, pRight)
          decreases if pRight == 0 then 0 else 1, base + mem.Length - pRight
        {
          ScanStep(h, m, base, p, pRight);
          pRight := mem[pRight - base].next;
        }
        ScanEnd(h, m, base, p, pRight, 0);
        if pRight == 0 {
          pLeft := pFreeTail;
        } else {
          pLeft := mem[pRight - base + 1].fprev;
        }
        ScanEnd(h, m, base, p, pRight, pLeft);
      } else {
        ScanNone(h, m, base, p);
      }
    }

    /** RTHEAPSIMPLEBLOCK_IS_FREE of the block at q. */
    predicate IsFlaggedFree(q: int, ghost p: int)
      requires Valid() && q != 0 && Scanned(m, mem.Length, base, p, q)
      reads this, mem
      ensures IsFlaggedFree(q, p) == IsFree(m, q - base)
      ensures q - base in m
    {
      ScanHeader(Img(), m, base, p, q);
      mem[q - base].isFree
    }

    /** Flags the block free and links it in at the head of the free list. */
    method InsertHead(pBlock: int, pRight: int)
      requires CanInsert(mem[..], pBlock - base, 0, Off(base, pRight)) && base > 0 && pRight != base
      modifies mem, this`pFreeHead, this`pFreeTail
      ensures Img() == Inserted(old(Img()), base, pBlock - base, 0, Off(base, pRight))
    {
      MarkFree(pBlock, Links(pRight, 0, 0));
      TellRight(pBlock, pRight);
      pFreeHead := pBlock;
    }

    /** Flags the block free and links it between its list neighbours. */
    method InsertBehind(pBlock: int, pLeft: int, pRight: int)
      requires CanInsert(mem[..], pBlock - base, Off(base, pLeft), Off(base, pRight))
      requires base > 0 && pLeft != 0 && pLeft != base && pRight != base
      modifies mem, this`pFreeTail
      ensures Img() == Inserted(old(Img()), base, pBlock - base, Off(base, pLeft), Off(base, pRight))
    {
      MarkFree(pBlock, Links(pRight, pLeft, 0));
      mem[pLeft - base + 1] := mem[pLeft - base + 1].(fnext := pBlock);
      TellRight(pBlock, pRight);
    }

    /** The block becomes a free one with these list links. */
    method MarkFree(pBlock: int, links: Granule)
      requires 0 <= pBlock - base && pBlock - base + 1 < mem.Length && mem[pBlock - base].Header?
      modifies mem
      ensures mem[..] == old(mem[..])[pBlock - base := old(mem[pBlock - base]).(isFree := true)]
        [pBlock - base + 1 := links]
    {
      mem[pBlock - base] := mem[pBlock - base].(isFree := true);
      mem[pBlock - base + 1] := links;
    }

    /** Points the next free block, or the anchor, back to pBlock. */
    method TellRight(pBlock: int, pRight: int)
      requires pRight != 0 ==> 0 <= pRight - base + 1 < mem.Length && mem[pRight - base + 1].Links?
      modifies mem, this`pFreeTail
      ensures mem[..] == if pRight == 0 then old(mem[..]) else
        old(mem[..])[pRight - base + 1 := old(mem[pRight - base + 1]).(fprev := pBlock)]
      ensures pFreeTail == if pRight == 0 then pBlock else old(pFreeTail)
    {
      if pRight != 0 {
        mem[pRight - base + 1] := mem[pRight - base + 1].(fprev := pBlock);
      } else {
        pFreeTail := pBlock;
      }
    }

    /** The block at pKeep takes over the block at pGone right behind it. */
    method JoinHeaders(pKeep: int, pGone: int)
      requires CanJoin(mem[..], m, base, pKeep - base, pGone - base)
      modifies mem
      ensures mem[..] == JoinedHeaders(old(mem[..]), m, base, pKeep - base, pGone - base)
    {
      var l, p := pKeep - base, pGone - base;
      mem[l] := mem[l].(next := mem[p].next);
      if mem[p].next != 0 {
        mem[mem[p].next - base] := mem[mem[p].next - base].(prev := pKeep);
      }
    }

    /** The block is merged into the free block on its left. */
    method JoinLeft(pLeft: int, pBlock: int)
      requires CanJoin(mem[..], m, base, pLeft - base, pBlock - base)
      requires pLeft - base + 1 < mem.Length && mem[pLeft - base + 1].Links? && pLeft - base + 1 != pBlock - base
      requires pLeft - base + 1 != End(m, pBlock - base)
      modifies mem, this`cbFree
      ensures Img() == LeftJoined(old(Img()), m, base, pLeft - base, pBlock - base)
    {
      JoinHeaders(pLeft, pBlock);
      cbFree := cbFree - mem[pLeft - base + 1].cb;
    }

    /** pFree takes over the free-list successor of the free block behind it. */
    method PassOnLinks(pFree: int, pRight: int)
      requires CanPatch(mem[..], base, pRight - base) && mem[pRight - base + 1].fprev == pFree != 0
      modifies mem, this`pFreeTail
      ensures mem[..] == Patched(old(mem[..]), base, pRight - base, old(mem[pRight - base + 1]).fnext, pFree)
      ensures pFreeTail == if old(mem[pRight - base + 1]).fnext == 0 then pFree else old(pFreeTail)
      ensures mem[pRight - base + 1] == old(mem[pRight - base + 1])
    {
      var x, r := pFree - base, pRight - base;
      mem[x + 1] := mem[x + 1].(fnext := mem[r + 1].fnext);
      if mem[r + 1].fnext != 0 {
        mem[mem[r + 1].fnext - base + 1] := mem[mem[r + 1].fnext - base + 1].(fprev := pFree);
      } else {
        pFreeTail := pFree;
      }
    }

    /** The free block on the right is merged into the block at pFree. */
    method JoinRight(pFree: int, pRight: int)
      requires CanJoinRight(Img(), m, base, pFree - base, pRight - base) && pFree != 0
      modifies mem, this`pFreeTail, this`cbFree
      ensures Img() == RightJoined(old(Img()), m, base, pFree - base, pRight - base)
    {
      hide CanJoinRight, CanJoin, CanPatch, JoinedHeaders, Patched, RightJoined;
      ghost var h, x, r := Img(), pFree - base, pRight - base;
      RightJoinedIs(h, m, base, x, r);
      JoinHeaders(pFree, pRight);
      assert mem[r + 1] == mem[..][r + 1];
      PassOnLinks(pFree, pRight);
      cbFree := cbFree - mem[pRight - base + 1].cb;
    }

    /** First half of freeing: the block becomes free, linked in or joined to the left. */
    method LinkFree(pBlock: int, pLeft: int, pRight: int) returns (pFree: int)
      requires Valid() && Between(m, pBlock - base, Off(base, pLeft), Off(base, pRight))
      requires pLeft != base && pRight != base
      modifies this, mem
      ensures base == old(base) && pvEnd == old(pvEnd)
      ensures pFree - base == LeftEdge(old(m), pBlock - base)
      ensures m == Merged(old(m), pFree - base, End(old(m), pBlock - base))
      ensures Pending(Img(), m, base, pFree - base)
      ensures PayloadsKept(m, old(mem[..]), mem[..])
    {
      hide Pending, PayloadsKept, CanInsert, Inserted, CanJoin, LeftJoined, Merged, LeftEdge, Listed, CachedBut,
        FreeSum, WellFormed;
      ghost var p, h, l, r := pBlock - base, Img(), Off(base, pLeft), Off(base, pRight);
      assert base > 0;
      InsertReady(h, m, base, p, l, r);
      LeftTouches(h, m, base, p, l, r);
      pFree := pBlock;
      if pLeft == 0 {
        InsertPending(h, m, base, p, l, r);
        InsertHead(pBlock, pRight);
      } else if mem[pLeft - base].next == pBlock {
        LeftPending(h, m, base, l, p);
        JoinLeft(pLeft, pBlock);
        pFree := pLeft;
      } else {
        InsertPending(h, m, base, p, l, r);
        InsertBehind(pBlock, pLeft, pRight);
      }
      m := Merged(m, pFree - base, End(m, p));
    }

    /** Second half of freeing: joins to the right when possible and settles the size. */
    method FinishFree(pFree: int, pRight: int)
      requires Pending(Img(), m, base, pFree - base) && pvEnd == base + mem.Length
      requires pRight != 0 ==> IsFree(m, pRight - base) && pRight != pFree
      requires IsFree(m, End(m, pFree - base)) <==> pRight != 0 && pRight - base == End(m, pFree - base)
      requires Coalesced(if IsFree(m, End(m, pFree - base)) then Merged(m, pFree - base, End(m, End(m, pFree - base)))
        else m)
      modifies this, mem
      ensures Valid() && base == old(base)
      ensures m == (var x, e := pFree - base, End(old(m), pFree - base);
        if IsFree(old(m), e) then Merged(old(m), x, End(old(m), e)) else old(m))
      ensures forall b :: b in m && m[b].kind.Live? ==> b in old(m) && old(m)[b] == m[b]
      ensures PayloadsKept(m, old(mem[..]), mem[..])
    {
      hide PayloadsKept, CanJoin, CanJoinRight, RightJoined, Merged, Sized, Listed, CachedBut, Chained, FreeSum,
        Coalesced, CanPatch, Tiled, Roomy;
      ghost var x, h0 := pFree - base, Img();
      if pRight != 0 { RightTouches(h0, m, base, x, pRight - base); }
      if pRight != 0 && mem[pRight - base].prev == pFree {
        RightLinks(h0, m, base, x, pRight - base);
        RightPending(h0, m, base, x, pRight - base);
        JoinRight(pFree, pRight);
        MergedLive(m, x, End(m, pRight - base));
        m := Merged(m, x, End(m, pRight - base));
      } else {
        PayloadsSame(m, h0.s);
      }
      SettleSize(pFree, h0.s);
    }

    method SettleSize(pFree: int, ghost s0: seq<Granule>)
      requires Pending(Img(), m, base, pFree - base) && pvEnd == base + mem.Length
      requires Coalesced(m) && PayloadsKept(m, s0, mem[..])
      modifies mem, this`cbFree
      ensures Valid() && PayloadsKept(m, s0, mem[..])
    {
      hide PayloadsKept, Listed, CachedBut, FreeSum, Coalesced, Sound;
      ghost var x, h := pFree - base, Img();
      SizedSound(h, m, base, x);
      HeaderNeighbours(h.s, m, base, x);
      var pEnd := if mem[pFree - base].next != 0 then mem[pFree - base].next else pvEnd;
      mem[pFree - base + 1] := mem[pFree - base + 1].(cb := pEnd - pFree - 1);
      cbFree := cbFree + mem[pFree - base + 1].cb;
      assert Img() == Sized(h, x, m[x].cb);
      PayloadsCompose(m, m, s0, h.s, mem[..]);
    }

    /** Frees a block: no effect when it is free already, otherwise the block and its free
        neighbours become one free block. */
    method FreeBlock(pBlock: int)
      requires Valid() && pBlock - base in m && !m[pBlock - base].kind.Pad?
      modifies this, mem
      ensures Valid() && base == old(base)
      ensures old(m)[pBlock - base].kind.Free? ==> m == old(m) && Img() == old(Img())
      ensures old(m)[pBlock - base].kind.Live? ==> m == Released(old(m), pBlock - base)
      ensures PayloadsKept(m, old(mem[..]), mem[..])
    {
      hide Pending, PayloadsKept, Merged, LeftEdge, Listed, CachedBut, Chained, FreeSum, WellFormed, Between,
        Released, Coalesced;
      ghost var p, m0, s0 := pBlock - base, m, mem[..];
      var pLeft, pRight := FreeNeighbours(pBlock);
      if pLeft == pBlock {
        AlreadyFree(pLeft, pRight, p);
        return;
      }
      var pFree := LinkFree(pBlock, pLeft, pRight);
      RightOf(m0, mem.Length, p, Off(base, pLeft), Off(base, pRight));
      ReleasedKeeps(m0, mem.Length, p);
      ghost var m1, s1 := m, mem[..];
      FinishFree(pFree, pRight);
      PayloadsCompose(m1, m, s0, s1, mem[..]);
    }

    // A live block is never its own left neighbour.
    lemma AlreadyFree(pLeft: int, pRight: int, p: int)
      requires Valid() && p in m && pLeft == base + p
      requires if m[p].kind.Free? then true else Between(m, p, Off(base, pLeft), Off(base, pRight))
      ensures m[p].kind.Free? && PayloadsKept(m, mem[..], mem[..])
    {
    }

    // ----- allocation -----

    /** Uses the block at pFree, which fits behind the gap: donates the gap, then splits the
        block when the rest can hold a free block, or takes it whole. */
    method Use(pFree: int, cb: nat, align: nat, offAlign: int) returns (pRet: int, ghost d: int)
      requires Valid() && align > 0 && cb >= 1
      requires offAlign == Gap(base, pFree - base, align) && Fits(m, base, pFree - base, cb, align)
      modifies this, mem
      ensures Valid() && base == old(base)
      ensures pRet == pFree + offAlign
      ensures if pFree - base == FIRST then d == FIRST else Before(old(m), d, pFree - base)
      ensures m == Allocated(old(m), base, d, pFree - base, cb, align)
      ensures PayloadsKept(old(m), old(mem[..]), mem[..])
    {
      hide Sound, PayloadsKept, Donated, Carved, Taken, WellFormed;
      ghost var m0, s0, b := m, mem[..], pFree - base;
      SoundShape(Img(), m, base);
      pRet := pFree;
      GapBounds(base, b, align);
      d := FrontOf(Img(), m, base, b);
      if offAlign != 0 {
        pRet, d := Donate(pFree, offAlign);
      } else {
        PayloadsSame(m, s0);
      }
      ghost var m1, s1 := m, mem[..];
      AfterGap(m0, mem.Length, d, b, offAlign);
      SizeInMemory(Img(), m, base, pRet - base);
      if mem[pRet - base + 1].cb >= cb + 2 {
        Carve(pRet, cb);
      } else {
        Take(pRet);
      }
      PayloadsGrow(m0, m1, s0, s1, mem[..]);
    }

    /** First fit from the low end of the heap. */
    method AllocBlock(cb: nat, align: nat) returns (r: AllocResult, ghost b: int)
      requires Valid() && 0 < align < WORD
      modifies this, mem
      ensures base == old(base) && Valid()
      ensures UnitsAllocated(old(m), m, base, r, b, cb, align)
      ensures PayloadsKept(old(m), old(mem[..]), mem[..])
      ensures !r.Block? ==> m == old(m) && Img() == old(Img())
    {
      hide Sound, PayloadsKept, Searched, Picked, Misfit, Granted, Allocated, Fits, WellFormed;
      ghost var h, m0 := Img(), m;
      PayloadsSame(m, mem[..]);
      SearchStart(h, m, base, cb, align);
      var pFree := pFreeHead;
      b := 0;
      while pFree != 0
        invariant Searched(m, base, cb, align, pFree)
        invariant m == m0 && Img() == h && base == old(base) && pvEnd == old(pvEnd)
        decreases if pFree == 0 then 0 else 1, base + mem.Length - pFree
      {
        SearchStep(h, m, base, cb, align, pFree);
        b := pFree - base;
        var size := mem[pFree - base + 1].cb;
        var offAlign := (pFree + 1) % align;
        if offAlign != 0 {
          offAlign := align - offAlign;
        }
        if size < cb || (offAlign != 0 && WrapSub(size, offAlign) < cb) {
          pFree := mem[pFree - base + 1].fnext;
          continue;
        }
        SearchStopped(m, base, cb, align, pFree);
        if cb == 0 || offAlign > size {
          r := Wild(pFree + offAlign);
          return;
        }
        ghost var d;
        var pRet;
        pRet, d := Use(pFree, cb, align, offAlign);
        r := Block(pRet);
        AllocatedGranted(m0, mem.Length, base, d, b, cb, align);
        return;
      }
      SearchFailed(m, base, cb, align);
      r := Null;
    }

    /** RTHeapSimpleAlloc, in bytes. */
    method Alloc(cb: nat, cbAlignment: nat) returns (r: AllocResult, ghost b: int)
      requires Valid() && cb < TWO64 && cbAlignment < TWO64 && (cbAlignment == 0 || IsPow2(cbAlignment))
      modifies this, mem
      ensures base == old(base) && Valid()
      ensures BytesAllocated(old(m), m, base, r, b, cb, cbAlignment)
      ensures PayloadsKept(old(m), old(mem[..]), mem[..])
      ensures !r.Block? ==> m == old(m) && Img() == old(Img())
    {
      IsWellFormed();
      AllocUnits(cb, cbAlignment);
      ghost var m0, at := m, base;
      hide *;
      var cbRounded := RoundedSize(cb);
      var uAlignment := RoundedAlignment(cbAlignment);
      r, b := AllocBlock(cbRounded / 32, uAlignment / 32);
      ghost var r0 := r;
      r := InBytes(r);
      AllocIs(m0, m, mem.Length, at, r0, b, cb, cbAlignment);
    }

    lemma IsWellFormed()
      requires Valid()
      ensures WellFormed(m, mem.Length)
    {
    }

    /** RTHeapSimpleFree: NULL is ignored. */
    method Free(pv: int)
      requires Valid() && (pv != 0 ==> pv % 32 == 0 && pv / 32 - 1 - base in m && !m[pv / 32 - 1 - base].kind.Pad?)
      modifies this, mem
      ensures Valid() && base == old(base)
      ensures m == (if pv != 0 && old(m)[pv / 32 - 1 - base].kind.Live?
        then Released(old(m), pv / 32 - 1 - base) else old(m))
      ensures PayloadsKept(m, old(mem[..]), mem[..])
    {
      hide Sound, PayloadsKept, Released;
      if pv == 0 {
        PayloadsSame(m, mem[..]);
        return;
      }
      FreeBlock(pv / 32 - 1);
    }

    /** RTHeapSimpleSize: the payload size of a used block in bytes. */
    method Size(pv: int) returns (cb: nat)
      requires Valid() && (pv != 0 ==> pv % 32 == 0 && pv / 32 - 1 - base in m)
      ensures cb == if pv == 0 then 0 else 32 * m[pv / 32 - 1 - base].cb
    {
      if pv == 0 {
        return 0;
      }
      var p := pv / 32 - 1;
      HeaderNeighbours(mem[..], m, base, p - base);
      var pNext := mem[p - base].next;
      cb := 32 * ((if pNext != 0 then pNext else pvEnd) - p - 1);
    }

    /** RTHeapSimpleGetFreeSize: the free bytes are the payload bytes of all free blocks. */
    method GetFreeSize() returns (cb: nat)
      requires Valid()
      ensures cb == 32 * FreeSum(m, FIRST, mem.Length)
    {
      cb := 32 * cbFree;
    }

    /** A caller may store anything anywhere in a live payload. */
    method Store(a: int, word: int)
      requires Valid() && 0 <= a - base < mem.Length && InPayload(m, a - base)
      modifies mem
      ensures Valid() && m == old(m)
      ensures mem[..] == old(mem[..])[a - base := Data(word)]
    {
      ghost var h := Img();
      mem[a - base] := Data(word);
      StoredSound(h, Img(), m, base, a - base);
    }

    // ----- relocation -----

    // RELOCATE_IT
    static function RelocateIt(p: int, offDelta: nat): int {
      if p != 0 then AddWrapped(p, offDelta) else p
    }

    /** RTHeapSimpleRelocate: the anchor now lives at base, its links still belong to address at. */
    method Relocate(offDelta: nat, ghost at: int) returns (ok: bool)
      requires ValidAt(at) && 0 < at && at + mem.Length < TWO64 / 32
      requires 0 < base && base + mem.Length < TWO64 / 32 && offDelta < TWO64 / 32
      modifies this, mem
      ensures base == old(base)
      ensures ok <==> offDelta == (base - at) % (TWO64 / 32)
      ensures ok ==> Valid() && m == old(m) && Img() == ShiftedImage(old(Img()), m, base - at)
      ensures ok ==> PayloadsKept(m, old(mem[..]), mem[..])
      ensures !ok ==> Img() == old(Img()) && m == old(m) && pvEnd == old(pvEnd)
    {
      if (base - pvEnd + mem.Length) % (TWO64 / 32) != offDelta {
        return false;
      }
      ghost var h, d := Img(), base - at;
      ShiftedSound(h, m, at, d);
      EndsBack(h, m, at, d);
      EndsInRange(h, m, at);
      ShiftsPtr(pvEnd, at, offDelta, mem.Length);
      ShiftsPtr(pFreeHead, at, offDelta, mem.Length);
      ShiftsPtr(pFreeTail, at, offDelta, mem.Length);
      pvEnd := RelocateIt(pvEnd, offDelta);
      pFreeHead := RelocateIt(pFreeHead, offDelta);
      pFreeTail := RelocateIt(pFreeTail, offDelta);
      RelocateBlocks(offDelta, at, h);
      ok := true;
    }

    lemma ShiftsPtr(p: int, at: int, offDelta: nat, n: int)
      requires 0 < at && at + n < TWO64 / 32 && 0 < base && base + n < TWO64 / 32 && n >= 0
      requires offDelta == (base - at) % (TWO64 / 32) && (p == 0 || at <= p <= at + n)
      ensures RelocateIt(p, offDelta) == ShiftedPtr(p, base - at)
    {
      if p != 0 { AddWrappedExact(p, base - at); }
    }

    /** Walks the heap blocks, shifting the links of each. */
    method RelocateBlocks(offDelta: nat, ghost at: int, ghost h: Image)
      requires Sound(h, m, at) && h.s == mem[..] && 0 < at && at + mem.Length < TWO64 / 32
      requires 0 < base && base + mem.Length < TWO64 / 32 && offDelta == (base - at) % (TWO64 / 32)
      requires pvEnd == base + mem.Length
      modifies mem
      ensures mem[..] == Shifted(h.s, m, base - at)
    {
      hide Sound, FreeSet, ShiftedAt, Shiftable, ShiftedHeader, ShiftedLinks;
      ghost var d := base - at;
      var pCur := base + FIRST;
      ghost var k := FIRST;
      BlocksStart(h, m, at, d);
      while pCur != 0 && pCur < pvEnd
        invariant k <= mem.Length && (k == mem.Length || k in m) && FIRST <= k
        invariant pCur == if k == mem.Length then 0 else base + k
        invariant forall i :: 0 <= i < k ==> mem[i] == ShiftedAt(h.s, m, d, i)
        invariant forall i :: k <= i < mem.Length ==> mem[i] == h.s[i]
        decreases mem.Length - k
      {
        BlockToShift(h, m, at, d, k);
        ShiftedOutside(h, m, at, d, k);
        RelocateBlock(pCur, offDelta, at, h, k);
        pCur := mem[pCur - base].next;
        k := End(m, k);
      }
    }

    /** Shifts the header of the block at pCur and, when it is free, its list links. */
    method RelocateBlock(pCur: int, offDelta: nat, ghost at: int, ghost h: Image, ghost k: int)
      requires pCur == base + k && 0 <= k && k + 1 < mem.Length
      requires |h.s| == mem.Length && mem[k] == h.s[k] && Shiftable(h, m, at, k)
      requires 0 < at && at + mem.Length < TWO64 / 32
      requires 0 < base && base + mem.Length < TWO64 / 32 && offDelta == (base - at) % (TWO64 / 32)
      requires mem[k + 1] == h.s[k + 1]
      modifies mem
      ensures mem[k] == ShiftedHeader(h.s[k], base - at)
      ensures mem[k + 1] == if IsFree(m, k) then ShiftedLinks(h.s[k + 1], base - at) else h.s[k + 1]
      ensures forall i :: 0 <= i < mem.Length && i != k && i != k + 1 ==> mem[i] == old(mem[i])
    {
      ShiftsPtr(mem[k].next, at, offDelta, mem.Length);
      ShiftsPtr(mem[k].prev, at, offDelta, mem.Length);
      ShiftsPtr(mem[k].heap, at, offDelta, mem.Length);
      var c := pCur - base;
      mem[c] := mem[c].(next := RelocateIt(mem[c].next, offDelta));
      mem[c] := mem[c].(prev := RelocateIt(mem[c].prev, offDelta));
      mem[c] := mem[c].(heap := RelocateIt(mem[c].heap, offDelta));
      if mem[c].isFree {
        ShiftsPtr(mem[k + 1].fnext, at, offDelta, mem.Length);
        ShiftsPtr(mem[k + 1].fprev, at, offDelta, mem.Length);
        mem[c + 1] := mem[c + 1].(fnext := RelocateIt(mem[c + 1].fnext, offDelta));
        mem[c + 1] := mem[c + 1].(fprev := RelocateIt(mem[c + 1].fprev, offDelta));
      }
    }

    // ----- the consistency check -----

    /** rtHeapSimpleAssertAll: the strict-build walk over the heap finds nothing to complain about. */
    method AssertAll() returns (ok: bool)
      requires Valid()
      ensures ok
    {
      hide Sound, Checked;
      ok := true;
      var pPrev, pPrevFree := 0, 0;
      var pBlock := base + FIRST;
      ghost var h, k := Img(), FIRST;
      CheckStart(h, m, base);
      while pBlock != 0
        invariant pBlock == if k == mem.Length then 0 else base + k
        invariant k == mem.Length || k in m
        invariant Checked(h, m, base, k, pPrev, pPrevFree)
        invariant ok && k <= mem.Length
        decreases mem.Length - k
      {
        CheckStep(h, m, base, k, pPrev, pPrevFree);
        var b := pBlock - base;
        ok := ok && mem[b].heap == base && base + FIRST <= pBlock < pvEnd
          && (mem[b].next != 0 ==> pBlock < mem[b].next < pvEnd)
          && (if mem[b].prev != 0 then base + FIRST <= mem[b].prev < pBlock else pBlock == base + FIRST);
        if mem[b].isFree {
          ok := ok && pFreeHead <= pBlock <= pFreeTail
            && mem[b + 1].cb == (if mem[b].next != 0 then mem[b].next else pvEnd) - pBlock - 1
            && mem[b + 1].fprev == pPrevFree
            && (pPrevFree != 0 || pFreeHead == pBlock);
          pPrevFree := pBlock;
        }
        ok := ok && (pPrev == 0 || pPrev == mem[b].prev);
        pPrev := pBlock;
        pBlock := mem[b].next;
        k := End(m, k);
      }
      CheckEnd(h, m, base, pPrev, pPrevFree);
      ok := ok && pFreeTail == pPrevFree;
    }
  }

  /** The adjusted size and alignment in granules. */
  lemma AllocUnits(cb: nat, cbAlignment: nat)
    requires cb < TWO64 && cbAlignment < TWO64 && (cbAlignment == 0 || IsPow2(cbAlignment))
    ensures RoundedAlignment(cbAlignment) / 32 == AlignUnits(cbAlignment)
    ensures AlignUnits(cbAlignment) == if cbAlignment <= 32 then 1 else cbAlignment / 32
    ensures 0 < AlignUnits(cbAlignment) < WORD && 0 <= RoundedSize(cb) / 32
    ensures cb <= TWO64 - 32 <==> RoundedSize(cb) / 32 >= 1
    ensures cb <= TWO64 - 32 ==> RoundedSize(cb) / 32 == (Needed(cb) + 31) / 32
  {
    SizeInGranules(cb);
    RoundedSizeExact(cb);
    AlignInRange(cbAlignment);
  }

  /** What an allocation in granules is in bytes. */
  lemma AllocIs(m: View, m': View, n: int, at: int, r: AllocResult, b: int, cb: nat, cbAlignment: nat)
    requires WellFormed(m, n) && cb < TWO64 && cbAlignment < TWO64 && (cbAlignment == 0 || IsPow2(cbAlignment))
    requires 0 < AlignUnits(cbAlignment) < WORD && 0 <= RoundedSize(cb) / 32
    requires UnitsAllocated(m, m', at, r, b, RoundedSize(cb) / 32, AlignUnits(cbAlignment))
    ensures BytesAllocated(m, m', at, InBytes(r), b, cb, cbAlignment)
  {
    AllocUnits(cb, cbAlignment);
    match r
    case Null =>
      hide *;
      AllocNullIs(m, m', at, b, cb, cbAlignment);
      assert InBytes(r) == Null by { InBytesIs(r); }
    case Wild(p) =>
      hide *;
      AllocWildIs(m, m', at, p, b, cb, cbAlignment);
      assert InBytes(r) == Wild(32 * (p + 1)) by { InBytesIs(r); }
    case Block(p) =>
      hide *;
      AllocBlockIs(m, m', n, at, b, p, cb, cbAlignment);
      assert InBytes(r) == Block(32 * (p + 1)) by { InBytesIs(r); }
  }

  lemma InBytesIs(r: AllocResult)
    ensures InBytes(r) ==
      match r case Null => Null case Block(p) => Block(32 * (p + 1)) case Wild(p) => Wild(32 * (p + 1))
  {
  }

  lemma AllocBlockIs(m: View, m': View, n: int, at: int, b: int, p: int, cb: nat, cbAlignment: nat)
    requires WellFormed(m, n) && cb < TWO64 && cbAlignment < TWO64 && (cbAlignment == 0 || IsPow2(cbAlignment))
    requires 0 < AlignUnits(cbAlignment) < WORD && 0 <= RoundedSize(cb) / 32
    requires UnitsAllocated(m, m', at, Block(p), b, RoundedSize(cb) / 32, AlignUnits(cbAlignment))
    ensures BytesAllocated(m, m', at, Block(32 * (p + 1)), b, cb, cbAlignment)
  {
    hide *;
    AllocUnits(cb, cbAlignment);
    IsTiled(m, n);
    var u, a := RoundedSize(cb) / 32, AlignUnits(cbAlignment);
    BlockFacts(m, m', at, p, b, u, a);
    GrantedSize(m, m', at, b, p - at, cb, cbAlignment);
    PickedFits(m, at, b, u, a);
    LowestPlace(m, n, at, b, cb, cbAlignment);
    AllocatedIsApply(m, m', n, at, b, u, a);
    BlockInBytes(m, m', at, b, p, 32 * (p + 1), u, a, cb, cbAlignment);
  }

  lemma BlockFacts(m: View, m': View, at: int, p: int, b: int, u: nat, a: nat)
    requires a > 0 && UnitsAllocated(m, m', at, Block(p), b, u, a)
    ensures u >= 1 && !Misfit(m, at, u, a) && Picked(m, at, b, u, a) && p == at + b + Gap(at, b, a)
    ensures Granted(m, m', at, b, p - at, u, a) && IsAllocated(m, m', at, b, u, a)
  {
    hide Misfit, Picked, Gap, Granted, IsAllocated;
  }

  lemma BlockInBytes(m: View, m': View, at: int, b: int, p: int, x: int, u: nat, a: nat, cb: nat, cbAlignment: nat)
    requires x == 32 * (p + 1) && a > 0 && u == RoundedSize(cb) / 32 && a == RoundedAlignment(cbAlignment) / 32
    requires a == if cbAlignment <= 32 then 1 else cbAlignment / 32
    requires cb <= TWO64 - 32 ==> u == (Needed(cb) + 31) / 32
    requires !Misfit(m, at, u, a) && IsLowestPlace(m, at, x, cb, cbAlignment) && Granted(m, m', at, b, p - at, u, a)
    requires p - at in m' && Needed(cb) <= 32 * m'[p - at].cb < Needed(cb) + 64
    requires m' == Apply(m, at, Allocate(u, a))
    ensures BytesAllocated(m, m', at, Block(x), b, cb, cbAlignment)
  {
    hide RoundedSize, RoundedAlignment, Needed, Misfit, IsLowestPlace, Granted, Apply;
    assert x % 32 == 0 && x / 32 - 1 - at == p - at;
  }

  lemma IsTiled(m: View, n: int)
    requires WellFormed(m, n)
    ensures Tiled(m, n)
  {
  }

  lemma GrantedSize(m: View, m': View, at: int, b: int, p: int, cb: nat, cbAlignment: nat)
    requires cb <= TWO64 - 32 && 0 < AlignUnits(cbAlignment) && 1 <= RoundedSize(cb) / 32
    requires Granted(m, m', at, b, p, RoundedSize(cb) / 32, AlignUnits(cbAlignment))
    ensures p in m' && Needed(cb) <= 32 * m'[p].cb < Needed(cb) + 64
  {
    SizeInGranules(cb);
    hide RoundedSize;
  }

  lemma AllocNullIs(m: View, m': View, at: int, b: int, cb: nat, cbAlignment: nat)
    requires cb < TWO64 && cbAlignment < TWO64 && (cbAlignment == 0 || IsPow2(cbAlignment))
    requires 0 < AlignUnits(cbAlignment) && 0 <= RoundedSize(cb) / 32
    requires UnitsAllocated(m, m', at, Null, b, RoundedSize(cb) / 32, AlignUnits(cbAlignment))
    ensures BytesAllocated(m, m', at, Null, b, cb, cbAlignment)
  {
    AllocUnits(cb, cbAlignment);
    hide Misfit, NothingFits, NoPlace, Apply, IsPow2, RoundedSize, RoundedAlignment, AlignUnits, Needed;
    NothingFitsNoPlace(m, at, cb, cbAlignment);
    NothingToApply(m, at, RoundedSize(cb) / 32, AlignUnits(cbAlignment));
  }

  /** Nothing goes wrong at the default alignment. */
  lemma AllocWildIs(m: View, m': View, at: int, p: int, b: int, cb: nat, cbAlignment: nat)
    requires cb < TWO64 && cbAlignment < TWO64 && (cbAlignment == 0 || IsPow2(cbAlignment))
    requires 0 < AlignUnits(cbAlignment) < WORD && 0 <= RoundedSize(cb) / 32
    requires UnitsAllocated(m, m', at, Wild(p), b, RoundedSize(cb) / 32, AlignUnits(cbAlignment))
    ensures BytesAllocated(m, m', at, Wild(32 * (p + 1)), b, cb, cbAlignment)
  {
    AllocUnits(cb, cbAlignment);
    hide Misfit, IsPow2, RoundedSize, RoundedAlignment, AlignUnits, Needed;
    MisfitIsSmall(m, at, RoundedSize(cb) / 32, AlignUnits(cbAlignment));
  }
}
