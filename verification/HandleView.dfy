/** The handle table of common/misc/handletable*.c as a value: a map from indexes to entries and
    the queue of free indexes. Module HandleTable proves that the two-level table follows it,
    module HandleRaces runs it under interleaved allocations. */
module HandleView {
  import opened Sequences

  const LEVEL2_ENTRIES: int := 2048
  // Entries added to the first level at a time: a page of pointers.
  const LEVEL1_STEP: int := 512
  const LEVEL1_DYN_ALLOC_THRESHOLD: int := 256
  const TWO32: int := 0x1_0000_0000
  const CMAX_LIMIT: int := 0xffff_f800

  /** The object pointer and context behind a live handle. */
  datatype Item = Item(obj: nat, ctx: nat)

  datatype View = View(uBase: nat, cMax: nat, cCur: nat, cLevel1: nat, free: seq<nat>, live: map<nat, Item>)

  // ----- free entries are told from used ones by the low two bits -----

  predicate IsFreeWord(w: nat) {
    w % 4 == 3
  }

  function FreeWord(idx: nat): nat {
    4 * idx + 3
  }

  function FreeIdx(w: nat): nat {
    w / 4 % TWO32
  }

  /** A pointer to anything aligned to four bytes is never taken for a free-list link. */
  lemma PointersAreNotFree(w: nat)
    ensures w % 4 == 0 ==> !IsFreeWord(w)
    ensures IsFreeWord(w) <==> exists idx: nat :: w == FreeWord(idx)
  {
    if IsFreeWord(w) { assert w == FreeWord(w / 4); }
  }

  lemma FreeWordRoundTrip(idx: nat)
    requires idx < TWO32
    ensures IsFreeWord(FreeWord(idx)) && FreeIdx(FreeWord(idx)) == idx
  {
  }

  // ----- handles are indexes plus the base, in 32 bits -----

  function HandleOf(uBase: nat, i: nat): nat {
    (i + uBase) % TWO32
  }

  function IndexOf(uBase: nat, h: nat): nat {
    (h - uBase) % TWO32
  }

  /** Even when base plus index wraps, handle and index determine each other. */
  lemma HandleRoundTrip(uBase: nat, i: nat)
    requires uBase < TWO32 && i < TWO32
    ensures IndexOf(uBase, HandleOf(uBase, i)) == i
  {
  }

  lemma HandleRoundTripBack(uBase: nat, h: nat)
    requires uBase < TWO32 && h < TWO32
    ensures IndexOf(uBase, h) < TWO32 && HandleOf(uBase, IndexOf(uBase, h)) == h
  {
  }

  // ----- the shape of a table -----

  /** The free queue and the live indexes split the entries; the first level covers them. */
  ghost predicate WellFormed(v: View) {
    && v.uBase < TWO32 && v.cMax <= CMAX_LIMIT
    && v.cMax % LEVEL2_ENTRIES == 0 && v.cCur % LEVEL2_ENTRIES == 0
    && v.cCur <= v.cMax
    && v.cCur / LEVEL2_ENTRIES <= v.cLevel1 <= v.cMax / LEVEL2_ENTRIES
    && NoRepeats(v.free)
    && (forall i :: i in v.free ==> i < v.cCur && i !in v.live)
    && (forall i :: i in v.live ==> i < v.cCur && !IsFreeWord(v.live[i].obj))
    && (forall i :: 0 <= i < v.cCur ==> i in v.free || i in v.live)
    && |v.live| + |v.free| == v.cCur
  }

  // ----- what each locked region does -----

  /** A free entry is taken from the head of the queue. */
  function Grabbed(v: View, obj: nat, ctx: nat): View
    requires v.free != []
  {
    v.(free := v.free[1..], live := v.live[v.free[0] := Item(obj, ctx)])
  }

  /** The size planned for the first level before the lock is dropped, 0 for no change. */
  function PlannedLevel1(v: View): nat {
    var c := if v.cCur / LEVEL2_ENTRIES >= v.cLevel1 then v.cLevel1 + LEVEL1_STEP else 0;
    if c > v.cMax / LEVEL2_ENTRIES then v.cMax / LEVEL2_ENTRIES else c
  }

  function WithLevel1(v: View, planned: nat): View {
    if planned > v.cLevel1 then v.(cLevel1 := planned) else v
  }

  predicate CanAddTable(v: View) {
    v.cCur / LEVEL2_ENTRIES < v.cLevel1 && v.cCur < v.cMax
  }

  function Span(from: nat, n: nat): (s: seq<nat>)
    ensures |s| == n && forall i :: 0 <= i < n ==> s[i] == from + i
  {
    seq(n, i requires 0 <= i < n => from + i)
  }

  /** A second-level table goes in; its entries join the tail of the queue in order. */
  function WithTable(v: View): View {
    v.(free := v.free + Span(v.cCur, LEVEL2_ENTRIES), cCur := v.cCur + LEVEL2_ENTRIES)
  }

  /** The table after one undisturbed expansion pass. */
  function Expanded(v: View): View {
    WithTable(WithLevel1(v, PlannedLevel1(v)))
  }

  /** The table an undisturbed allocation takes its entry from. */
  function Supplied(v: View): View {
    if v.free != [] then v else Expanded(v)
  }

  /** The entry joins the tail of the queue. */
  function Released(v: View, i: nat): View {
    v.(free := v.free + [i], live := v.live - {i})
  }

  lemma GrabbedKeeps(v: View, obj: nat, ctx: nat)
    requires WellFormed(v) && v.free != [] && !IsFreeWord(obj)
    ensures WellFormed(Grabbed(v, obj, ctx))
  {
    var v' := Grabbed(v, obj, ctx);
    assert v.free == [v.free[0]] + v'.free;
    forall i | i in v'.free ensures i in v.free && i != v.free[0] {
      var j :| 0 <= j < |v'.free| && v'.free[j] == i;
      assert v.free[j + 1] == i;
    }
    assert |v'.live| == |v.live| + 1 by { assert v'.live.Keys == v.live.Keys + {v.free[0]}; }
    forall i | 0 <= i < v'.cCur ensures i in v'.free || i in v'.live { assert i in v.free || i in v.live; }
  }

  lemma WithLevel1Keeps(v: View, planned: nat)
    requires WellFormed(v) && planned <= v.cMax / LEVEL2_ENTRIES
    ensures WellFormed(WithLevel1(v, planned))
  {
  }

  lemma WithTableKeeps(v: View)
    requires WellFormed(v) && CanAddTable(v)
    ensures WellFormed(WithTable(v)) && WithTable(v).free != []
  {
    var v' := WithTable(v);
    forall k | 0 <= k < |v.free| ensures v.free[k] < v.cCur { assert v.free[k] in v.free; }
    forall i | 0 <= i < v'.cCur ensures i in v'.free || i in v'.live {
      if i >= v.cCur {
        assert v'.free[|v.free| + (i - v.cCur)] == i;
      } else {
        assert i in v.free || i in v.live;
      }
    }
  }

  lemma ReleasedKeeps(v: View, i: nat)
    requires WellFormed(v) && i in v.live
    ensures WellFormed(Released(v, i))
  {
  }

  /** Planning a larger first level always makes room for the next table. */
  lemma PlanMakesRoom(v: View)
    requires WellFormed(v) && v.cCur < v.cMax
    ensures PlannedLevel1(v) <= v.cMax / LEVEL2_ENTRIES
    ensures if PlannedLevel1(v) == 0 then v.cCur / LEVEL2_ENTRIES < v.cLevel1
            else v.cCur / LEVEL2_ENTRIES < PlannedLevel1(v)
  {
  }

  // ----- the table as a map from handles -----

  /** What a caller sees: the handles in use with their objects and contexts. */
  ghost function Handles(v: View): map<nat, Item>
    requires WellFormed(v)
  {
    ByHandle(v.uBase, v.live)
  }

  ghost function ByHandle(uBase: nat, live: map<nat, Item>): map<nat, Item> {
    map h | 0 <= h < TWO32 && IndexOf(uBase, h) in live :: live[IndexOf(uBase, h)]
  }

  lemma ByHandleGrows(uBase: nat, live: map<nat, Item>, i: nat, item: Item)
    requires uBase < TWO32 && i < TWO32 && i !in live
    ensures HandleOf(uBase, i) !in ByHandle(uBase, live)
    ensures ByHandle(uBase, live[i := item]) == ByHandle(uBase, live)[HandleOf(uBase, i) := item]
  {
    hide HandleOf, IndexOf;
    OneHandle(uBase, i);
  }

  /** The object behind handle h for context ctx; 0 (NULL) for anything else. */
  function Found(v: View, h: nat, ctx: nat): nat {
    var i := IndexOf(v.uBase, h);
    if i in v.live && v.live[i].ctx == ctx then v.live[i].obj else 0
  }

  lemma FoundIsMapLookup(v: View, h: nat, ctx: nat)
    requires WellFormed(v) && h < TWO32
    ensures Found(v, h, ctx) == if h in Handles(v) && Handles(v)[h].ctx == ctx then Handles(v)[h].obj else 0
  {
  }

  lemma OneHandle(uBase: nat, i: nat)
    requires uBase < TWO32 && i < TWO32
    ensures HandleOf(uBase, i) < TWO32
    ensures forall h: nat :: h < TWO32 ==> (IndexOf(uBase, h) == i <==> h == HandleOf(uBase, i))
  {
  }

  /** Allocation adds a handle that was not in use. */
  lemma GrabbedHandles(v: View, obj: nat, ctx: nat)
    requires WellFormed(v) && v.free != [] && !IsFreeWord(obj)
    ensures WellFormed(Grabbed(v, obj, ctx))
    ensures HandleOf(v.uBase, v.free[0]) !in Handles(v)
    ensures Handles(Grabbed(v, obj, ctx)) == Handles(v)[HandleOf(v.uBase, v.free[0]) := Item(obj, ctx)]
  {
    GrabbedKeeps(v, obj, ctx);
    assert v.free[0] in v.free;
    hide HandleOf, ByHandle, IsFreeWord;
    ByHandleGrows(v.uBase, v.live, v.free[0], Item(obj, ctx));
  }

  /** Freeing removes exactly that handle. */
  lemma ReleasedHandles(v: View, h: nat)
    requires WellFormed(v) && h < TWO32 && IndexOf(v.uBase, h) in v.live
    ensures WellFormed(Released(v, IndexOf(v.uBase, h)))
    ensures Handles(Released(v, IndexOf(v.uBase, h))) == Handles(v) - {h}
  {
    ReleasedKeeps(v, IndexOf(v.uBase, h));
    forall k: nat | k < TWO32 ensures IndexOf(v.uBase, k) == IndexOf(v.uBase, h) <==> k == h {
      HandleRoundTripBack(v.uBase, k);
      HandleRoundTripBack(v.uBase, h);
    }
  }

  /** Expanding changes nothing for anyone. */
  lemma WithTableHandles(v: View)
    requires WellFormed(v) && CanAddTable(v)
    ensures WellFormed(WithTable(v)) && Handles(WithTable(v)) == Handles(v)
  {
    WithTableKeeps(v);
  }

  // ----- first in, first out -----

  /** The indexes handed out by one allocation after another, without expansion. */
  function Issued(v: View, items: seq<Item>): seq<nat>
    decreases |items|
  {
    if items == [] || v.free == [] then [] else
    [v.free[0]] + Issued(Grabbed(v, items[0].obj, items[0].ctx), items[1..])
  }

  lemma {:induction false} IssuedInOrder(v: View, items: seq<Item>)
    requires |items| <= |v.free|
    ensures Issued(v, items) == v.free[..|items|]
    decreases |items|
  {
    if items != [] {
      IssuedInOrder(Grabbed(v, items[0].obj, items[0].ctx), items[1..]);
    }
  }

  /** A freed index is reissued after everything that was free before it, in the old order. */
  lemma FreedIsReissuedLast(v: View, i: nat, items: seq<Item>)
    requires |items| == |v.free| + 1
    ensures Issued(Released(v, i), items) == v.free + [i]
  {
    IssuedInOrder(Released(v, i), items);
  }
}
