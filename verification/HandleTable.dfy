/** The two-level handle table of common/misc/handletable.c, handletablectx.c and handletable.h:
    tables of entries with the free list threaded through the free ones. */
module HandleTable {
  import opened HandleView

  /** An object pointer, or a tagged free-list link, and a context. */
  datatype Entry = Entry(pvObj: nat, pvCtx: nat)

  const NIL_INDEX: nat := 0xffff_ffff
  // The context stored in free entries: all ones but the low three bits.
  const CTX_FREE: nat := 0xffff_ffff_ffff_fff8

  // What the free entry at position k of the queue holds.
  function FreeEntry(free: seq<nat>, k: nat): Entry
    requires k < |free|
  {
    Entry(FreeWord(if k + 1 < |free| then free[k + 1] else NIL_INDEX), CTX_FREE)
  }

  /** The entries and both ends of the free list represent the view. */
  ghost predicate EntriesOk(v: View, es: seq<Entry>, head: nat, tail: nat) {
    && |es| == v.cCur
    && (forall i :: i in v.live ==> i < |es| && es[i] == Entry(v.live[i].obj, v.live[i].ctx))
    && (forall k :: 0 <= k < |v.free| ==> v.free[k] < |es| && es[v.free[k]] == FreeEntry(v.free, k))
    && head == (if v.free == [] then NIL_INDEX else v.free[0])
    && tail == (if v.free == [] then NIL_INDEX else v.free[|v.free| - 1])
  }

  lemma GrabbedEntries(v: View, es: seq<Entry>, head: nat, tail: nat, obj: nat, ctx: nat)
    requires WellFormed(v) && EntriesOk(v, es, head, tail) && v.free != [] && !IsFreeWord(obj)
    ensures head < |es| && FreeIdx(es[head].pvObj) == (if |v.free| > 1 then v.free[1] else NIL_INDEX)
    ensures head == tail <==> |v.free| == 1
    ensures var v' := Grabbed(v, obj, ctx);
      EntriesOk(v', es[head := Entry(obj, ctx)], if head == tail then NIL_INDEX else FreeIdx(es[head].pvObj),
                if head == tail then NIL_INDEX else tail)
  {
    HeadTells(v, es, head, tail);
    hide FreeIdx, WellFormed;
    GrabbedFree(v, es, head, tail, obj, ctx);
    hide FreeEntry;
  }

  /** The entries that stay free still link to each other. */
  lemma GrabbedFree(v: View, es: seq<Entry>, head: nat, tail: nat, obj: nat, ctx: nat)
    requires WellFormed(v) && EntriesOk(v, es, head, tail) && v.free != []
    ensures head < |es|
    ensures var es', free' := es[head := Entry(obj, ctx)], v.free[1..];
      forall k :: 0 <= k < |free'| ==> free'[k] < |es'| && es'[free'[k]] == FreeEntry(free', k)
  {
    HeadTells(v, es, head, tail);
    hide WellFormed, FreeWord;
    var es', free' := es[head := Entry(obj, ctx)], v.free[1..];
    forall k | 0 <= k < |free'| ensures free'[k] < |es'| && es'[free'[k]] == FreeEntry(free', k) {
      assert es[v.free[k + 1]] == FreeEntry(v.free, k + 1);
    }
  }

  lemma HeadTells(v: View, es: seq<Entry>, head: nat, tail: nat)
    requires WellFormed(v) && EntriesOk(v, es, head, tail) && v.free != []
    ensures head < |es| && head == v.free[0] && head !in v.live
    ensures FreeIdx(es[head].pvObj) == (if |v.free| > 1 then v.free[1] else NIL_INDEX)
    ensures head == tail <==> |v.free| == 1
    ensures forall k :: 0 < k < |v.free| ==> v.free[k] != head && v.free[k] < |es|
  {
    assert v.free[0] in v.free;
    assert es[v.free[0]] == FreeEntry(v.free, 0);
    if |v.free| > 1 {
      assert v.free[1] in v.free;
      FreeWordRoundTrip(v.free[1]);
    } else {
      FreeWordRoundTrip(NIL_INDEX);
    }
  }

  lemma ReleasedEntries(v: View, es: seq<Entry>, head: nat, tail: nat, i: nat)
    requires WellFormed(v) && EntriesOk(v, es, head, tail) && i in v.live
    ensures v.free != [] ==> tail < |es| && tail != i
    ensures var es1 := es[i := Entry(FreeWord(NIL_INDEX), CTX_FREE)];
      EntriesOk(Released(v, i), if v.free == [] then es1 else es1[tail := Entry(FreeWord(i), es1[tail].pvCtx)],
                if v.free == [] then i else head, i)
  {
    var v' := Released(v, i);
    if v.free != [] {
      assert v.free[|v.free| - 1] in v.free;
      assert es[v.free[|v.free| - 1]] == FreeEntry(v.free, |v.free| - 1);
    }
    var es1 := es[i := Entry(FreeWord(NIL_INDEX), CTX_FREE)];
    var es' := if v.free == [] then es1 else es1[tail := Entry(FreeWord(i), es1[tail].pvCtx)];
    forall k | 0 <= k < |v'.free| ensures v'.free[k] < |es'| && es'[v'.free[k]] == FreeEntry(v'.free, k) {
      if k < |v.free| {
        assert v.free[k] in v.free && es[v.free[k]] == FreeEntry(v.free, k);
      }
    }
    forall j | j in v'.live ensures es'[j] == Entry(v'.live[j].obj, v'.live[j].ctx) {
      assert j in v.live;
    }
  }

  // The entries of a fresh second-level table that starts at index cCur.
  ghost predicate FreshEntries(t: seq<Entry>, cCur: nat) {
    && |t| == LEVEL2_ENTRIES
    && forall i :: 0 <= i < LEVEL2_ENTRIES ==>
      t[i] == Entry(FreeWord(if i + 1 < LEVEL2_ENTRIES then cCur + i + 1 else NIL_INDEX), CTX_FREE)
  }

  // The entries after a fresh table was appended and the old tail linked to it.
  ghost function Appended(v: View, es: seq<Entry>, tail: nat, t: seq<Entry>): seq<Entry>
    requires v.free != [] ==> tail < |es|
  {
    (if v.free == [] then es else es[tail := Entry(FreeWord(v.cCur), es[tail].pvCtx)]) + t
  }

  lemma AppendedAt(v: View, es: seq<Entry>, head: nat, tail: nat, t: seq<Entry>, k: nat)
    requires WellFormed(v) && EntriesOk(v, es, head, tail) && FreshEntries(t, v.cCur)
    requires v.free != [] ==> tail < |es|
    requires k < |v.free| + LEVEL2_ENTRIES
    ensures var f := v.free + Span(v.cCur, LEVEL2_ENTRIES);
      f[k] < |Appended(v, es, tail, t)| && Appended(v, es, tail, t)[f[k]] == FreeEntry(f, k)
  {
  }

  lemma AddedEntries(v: View, es: seq<Entry>, head: nat, tail: nat, t: seq<Entry>)
    requires WellFormed(v) && EntriesOk(v, es, head, tail) && CanAddTable(v) && FreshEntries(t, v.cCur)
    ensures v.free != [] ==> tail < |es| && tail in v.free
    ensures EntriesOk(WithTable(v), Appended(v, es, tail, t),
            if v.free == [] then v.cCur else head, v.cCur + LEVEL2_ENTRIES - 1)
  {
    AddedLive(v, es, head, tail, t);
    hide WellFormed, FreshEntries, FreeEntry, Appended;
    var v' := WithTable(v);
    forall k | 0 <= k < |v'.free|
      ensures v'.free[k] < |Appended(v, es, tail, t)| && Appended(v, es, tail, t)[v'.free[k]] == FreeEntry(v'.free, k)
    {
      AppendedAt(v, es, head, tail, t, k);
    }
  }

  /** The entries in use are where they were. */
  lemma AddedLive(v: View, es: seq<Entry>, head: nat, tail: nat, t: seq<Entry>)
    requires WellFormed(v) && EntriesOk(v, es, head, tail) && FreshEntries(t, v.cCur)
    ensures v.free != [] ==> tail < |es| && tail in v.free
    ensures |Appended(v, es, tail, t)| == v.cCur + LEVEL2_ENTRIES
    ensures forall i :: i in v.live ==> i < |es| && Appended(v, es, tail, t)[i] == Entry(v.live[i].obj, v.live[i].ctx)
  {
    if v.free != [] {
      assert v.free[|v.free| - 1] in v.free;
    }
  }

  datatype Status = Success(h: nat) | TryAgain | NoMoreHandles | NoMemory | InvalidParameter

  datatype CreateStatus = Created | BadParameter | OutOfMemory | NoSpinlock

  // RTHANDLETABLE_FLAGS_CONTEXT and RTHANDLETABLE_FLAGS_LOCKED, the two lowest bits.
  const FLAGS_CONTEXT: nat := 1
  const FLAGS_LOCKED: nat := 2

  /** cMax rounded up to whole second-level tables, or down when too close to the 32-bit limit. */
  function RoundedMax(cMax: nat): nat {
    var c := if cMax >= TWO32 - 1 - LEVEL2_ENTRIES then TWO32 - LEVEL2_ENTRIES else cMax;
    (c + LEVEL2_ENTRIES - 1) / LEVEL2_ENTRIES * LEVEL2_ENTRIES
  }

  lemma RoundedMaxExact(cMax: nat)
    requires 0 < cMax < TWO32
    ensures RoundedMax(cMax) % LEVEL2_ENTRIES == 0 && 0 < RoundedMax(cMax) <= CMAX_LIMIT
    ensures if cMax <= CMAX_LIMIT then cMax <= RoundedMax(cMax) < cMax + LEVEL2_ENTRIES
      else RoundedMax(cMax) == CMAX_LIMIT
  {
  }

  /** A deletion callback: the handle, its object and its context. */
  datatype Deletion = Deletion(h: nat, pvObj: nat, pvCtx: nat)

  /** The callbacks that destroying owes: one for every live index below hi, in order. */
  function Owed(v: View, hi: nat): seq<Deletion> {
    if hi == 0 then [] else
    Owed(v, hi - 1) +
      (if hi - 1 in v.live then [Deletion(HandleOf(v.uBase, hi - 1), v.live[hi - 1].obj, v.live[hi - 1].ctx)] else [])
  }

  class Table {
    const uBase: nat
    const cMax: nat
    var cCur: nat
    var cCurAllocated: nat
    var papvLevel1: seq<array?<Entry>>
    var iFreeHead: nat
    var iFreeTail: nat
    // What the table represents, and its entries in index order.
    ghost var v: View
    ghost var es: seq<Entry>

    ghost function Tables(): set<object>
      reads this`papvLevel1
    {
      set j | 0 <= j < |papvLevel1| && papvLevel1[j] != null :: papvLevel1[j]
    }

    /** The first level holds distinct second-level tables below cCur and nothing above. */
    ghost predicate Stored()
      reads this`papvLevel1, this`cCur, this`es, Tables()
    {
      && cCur % LEVEL2_ENTRIES == 0 && cCur / LEVEL2_ENTRIES <= |papvLevel1|
      && (forall j :: 0 <= j < |papvLevel1| ==>
        if j < cCur / LEVEL2_ENTRIES then papvLevel1[j] != null && papvLevel1[j].Length == LEVEL2_ENTRIES
        else papvLevel1[j] == null)
      && (forall j, k :: 0 <= j < k < cCur / LEVEL2_ENTRIES ==> papvLevel1[j] != papvLevel1[k])
      && |es| == cCur
      && (forall j, i :: 0 <= j < cCur / LEVEL2_ENTRIES && 0 <= i < LEVEL2_ENTRIES ==>
        papvLevel1[j][i] == es[LEVEL2_ENTRIES * j + i])
    }

    ghost predicate Valid()
      reads this, Tables()
    {
      && WellFormed(v)
      && v.uBase == uBase && v.cMax == cMax && v.cCur == cCur && v.cLevel1 == |papvLevel1|
      && cCurAllocated == |v.live|
      && Stored()
      && EntriesOk(v, es, iFreeHead, iFreeTail)
    }

    /** Reads entry i through both levels. */
    function Get(i: nat): (e: Entry)
      requires Stored() && i < cCur
      reads this`papvLevel1, this`cCur, this`es, Tables()
      ensures e == es[i]
    {
      var j, k := i / LEVEL2_ENTRIES, i % LEVEL2_ENTRIES;
      assert i == LEVEL2_ENTRIES * j + k;
      papvLevel1[j][k]
    }

    /** Writes entry i through both levels. */
    method Set(i: nat, e: Entry)
      requires Stored() && i < cCur
      modifies this`es, papvLevel1[i / LEVEL2_ENTRIES]
      ensures Stored() && es == old(es)[i := e]
    {
      var j, k := i / LEVEL2_ENTRIES, i % LEVEL2_ENTRIES;
      papvLevel1[j][k] := e;
      es := es[i := e];
    }

    /** What an entry below cCur says: it is live exactly when its low bits are not both set. */
    lemma EntryTells(i: nat)
      requires Valid() && i < cCur
      ensures i in v.live <==> !IsFreeWord(es[i].pvObj)
      ensures i in v.live ==> es[i] == Entry(v.live[i].obj, v.live[i].ctx)
    {
      if i !in v.live {
        assert i in v.free;
        var k :| 0 <= k < |v.free| && v.free[k] == i;
        assert es[v.free[k]] == FreeEntry(v.free, k);
        FreeWordIsFree(v.free, k);
      }
    }

    lemma FreeWordIsFree(free: seq<nat>, k: nat)
      requires k < |free|
      ensures IsFreeWord(FreeEntry(free, k).pvObj)
    {
    }

    /** RTHandleTableLookupWithCtx; retained is what the retain callback answers, true without one. */
    method LookupWithCtx(h: nat, pvCtx: nat, retained: bool) returns (pvObj: nat)
      requires Valid() && h < TWO32
      ensures pvObj == if retained then Found(v, h, pvCtx) else 0
    {
      hide WellFormed, EntriesOk, FreeWord;
      pvObj := 0;
      LiveBelow(v);
      var i := IndexOf(uBase, h);
      if i < cCur {
        var e := Get(i);
        EntryTells(i);
        if e.pvCtx == pvCtx {
          if !IsFreeWord(e.pvObj) {
            pvObj := e.pvObj;
            if !retained {
              pvObj := 0;
            }
          }
        }
      }
    }

    /** RTHandleTableFreeWithCtx: the entry goes to the tail of the free list, unless the object
        pointer it held was NULL. */
    method FreeWithCtx(h: nat, pvCtx: nat, retained: bool) returns (pvObj: nat)
      requires Valid() && h < TWO32
      modifies this`v, this`es, this`iFreeHead, this`iFreeTail, this`cCurAllocated, Tables()
      ensures Valid()
      ensures pvObj == if retained then Found(old(v), h, pvCtx) else 0
      ensures v == if pvObj != 0 then Released(old(v), IndexOf(uBase, h)) else old(v)
    {
      hide WellFormed, EntriesOk, FreeWord, Released, Stored;
      pvObj := 0;
      LiveBelow(v);
      var i := IndexOf(uBase, h);
      if i < cCur {
        var e := Get(i);
        EntryTells(i);
        if e.pvCtx == pvCtx && !IsFreeWord(e.pvObj) {
          pvObj := e.pvObj;
          if !retained {
            pvObj := 0;
          }
          if pvObj != 0 {
            LinkFree(i);
          }
        }
      }
    }

    /** Puts the entry of a live index at the tail of the free list. */
    method LinkFree(i: nat)
      requires Valid() && i in v.live && i < cCur
      modifies this`v, this`es, this`iFreeHead, this`iFreeTail, this`cCurAllocated, Tables()
      ensures Valid() && v == Released(old(v), i)
    {
      hide WellFormed, EntriesOk, Stored, FreeWord, Released;
      ReleasedEntries(v, es, iFreeHead, iFreeTail, i);
      ReleasedKeeps(v, i);
      ReleasedSize(v, i);
      TailTells(v, es, iFreeHead, iFreeTail);
      LinkTail(i);
      cCurAllocated := cCurAllocated - 1;
      v := Released(v, i);
    }

    /** Entry i becomes the last free one, and what was the last one points to it. */
    method LinkTail(i: nat)
      requires Stored() && i < cCur && (iFreeTail != NIL_INDEX ==> iFreeTail < cCur && iFreeTail != i)
      modifies this`es, this`iFreeHead, this`iFreeTail, Tables()
      ensures Stored() && iFreeTail == i && iFreeHead == if old(iFreeTail) == NIL_INDEX then i else old(iFreeHead)
      ensures var es1 := old(es)[i := Entry(FreeWord(NIL_INDEX), CTX_FREE)];
        es == if old(iFreeTail) == NIL_INDEX then es1
              else es1[old(iFreeTail) := Entry(FreeWord(i), es1[old(iFreeTail)].pvCtx)]
    {
      hide Stored, FreeWord;
      InTables(i);
      Set(i, Entry(FreeWord(NIL_INDEX), CTX_FREE));
      if iFreeTail == NIL_INDEX {
        iFreeHead := i;
        iFreeTail := i;
      } else {
        InTables(iFreeTail);
        var prev := Get(iFreeTail);
        Set(iFreeTail, Entry(FreeWord(i), prev.pvCtx));
        iFreeTail := i;
      }
    }

    lemma InTables(i: nat)
      requires Stored() && i < cCur
      ensures |es| == cCur
      ensures papvLevel1[i / LEVEL2_ENTRIES] != null && papvLevel1[i / LEVEL2_ENTRIES] in Tables()
    {
    }

    /** The locked region of an allocation that finds a free entry. */
    method Grab(pvObj: nat, pvCtx: nat) returns (h: nat)
      requires Valid() && v.free != [] && !IsFreeWord(pvObj)
      modifies this`v, this`es, this`iFreeHead, this`iFreeTail, this`cCurAllocated, Tables()
      ensures Valid() && v == Grabbed(old(v), pvObj, pvCtx) && Tables() == old(Tables())
      ensures h == HandleOf(uBase, old(v).free[0])
    {
      hide WellFormed, EntriesOk, Stored, FreeWord, FreeIdx;
      GrabbedEntries(v, es, iFreeHead, iFreeTail, pvObj, pvCtx);
      GrabbedKeeps(v, pvObj, pvCtx);
      GrabbedSize(v, es, iFreeHead, iFreeTail, pvObj, pvCtx);
      var i := iFreeHead;
      InTables(i);
      var e := Get(i);
      if i == iFreeTail {
        iFreeTail := NIL_INDEX;
        iFreeHead := NIL_INDEX;
      } else {
        iFreeHead := FreeIdx(e.pvObj);
      }
      cCurAllocated := cCurAllocated + 1;
      Set(i, Entry(pvObj, pvCtx));
      h := HandleOf(uBase, i);
      v := Grabbed(v, pvObj, pvCtx);
    }

    /** Replaces the first level by a larger copy, unless a racer already made it that large. */
    method InstallLevel1(cLevel1: nat)
      requires Valid() && cLevel1 <= cMax / LEVEL2_ENTRIES
      modifies this`v, this`papvLevel1
      ensures Valid() && v == WithLevel1(old(v), cLevel1) && es == old(es)
      ensures cCur == old(cCur) && Tables() <= old(Tables())
    {
      hide EntriesOk;
      WithLevel1Keeps(v, cLevel1);
      WithLevel1Entries(v, cLevel1, es, iFreeHead, iFreeTail);
      if cLevel1 > |papvLevel1| {
        ghost var before := papvLevel1;
        papvLevel1 := papvLevel1 + seq(cLevel1 - |papvLevel1|, _ => null);
        assert forall j :: 0 <= j < |before| ==> before[j] == papvLevel1[j];
      }
      v := WithLevel1(v, cLevel1);
    }

    /** Links all entries of a new table into a list that starts at index cCur. */
    static method LinkEntries(paTable: array<Entry>, cCur: nat)
      requires paTable.Length == LEVEL2_ENTRIES
      modifies paTable
      ensures FreshEntries(paTable[..], cCur)
    {
      var i := 0;
      while i < LEVEL2_ENTRIES - 1
        invariant 0 <= i <= LEVEL2_ENTRIES - 1
        invariant forall k :: 0 <= k < i ==> paTable[k] == Entry(FreeWord(k + 1 + cCur), CTX_FREE)
      {
        paTable[i] := Entry(FreeWord(i + 1 + cCur), CTX_FREE);
        i := i + 1;
      }
      paTable[LEVEL2_ENTRIES - 1] := Entry(FreeWord(NIL_INDEX), CTX_FREE);
    }

    /** Puts a new second-level table in and joins its entries to the free list. */
    method InstallTable(paTable: array<Entry>)
      requires Valid() && CanAddTable(v)
      requires paTable.Length == LEVEL2_ENTRIES && paTable !in Tables()
      modifies this`v, this`es, this`papvLevel1, this`cCur, this`iFreeHead, this`iFreeTail, Tables(), paTable
      ensures Valid() && v == WithTable(old(v)) && Tables() <= old(Tables()) + {paTable}
    {
      hide WellFormed, EntriesOk, FreeWord, FreshEntries, WithTable, Stored;
      WithTableKeeps(v);
      WithTableShape(v);
      LinkEntries(paTable, cCur);
      ghost var t := paTable[..];
      AddedEntries(v, es, iFreeHead, iFreeTail, t);
      FreshLength(t, cCur);
      JoinFreeList(t);
      assert paTable[..] == t;
      iFreeTail := cCur + LEVEL2_ENTRIES - 1;
      AppendTable(paTable);
      assert this !in Tables();
      v := WithTable(v);
    }

    /** Links the tail of the free list, or its head when it is empty, to the table t to come. */
    method JoinFreeList(ghost t: seq<Entry>)
      requires Valid()
      modifies this`es, this`iFreeHead, Tables()
      ensures Stored() && old(v.free != [] ==> iFreeTail < |es|) && es + t == Appended(v, old(es), iFreeTail, t)
      ensures iFreeHead == if v.free == [] then cCur else old(iFreeHead)
    {
      hide WellFormed, EntriesOk, FreeWord, Stored;
      TailTells(v, es, iFreeHead, iFreeTail);
      if iFreeTail == NIL_INDEX {
        iFreeHead := cCur;
      } else {
        TailBelow(v, es, iFreeHead, iFreeTail);
        InTables(iFreeTail);
        var prev := Get(iFreeTail);
        Set(iFreeTail, Entry(FreeWord(cCur), prev.pvCtx));
      }
    }

    method AppendTable(paTable: array<Entry>)
      requires Stored() && cCur / LEVEL2_ENTRIES < |papvLevel1|
      requires paTable.Length == LEVEL2_ENTRIES && paTable !in Tables()
      modifies this`es, this`papvLevel1, this`cCur
      ensures Stored() && es == old(es) + paTable[..]
      ensures cCur == old(cCur) + LEVEL2_ENTRIES && |papvLevel1| == |old(papvLevel1)|
      ensures Tables() <= old(Tables()) + {paTable}
    {
      ghost var n, old1, old2 := cCur / LEVEL2_ENTRIES, papvLevel1, es;
      assert forall j :: 0 <= j < n ==> papvLevel1[j] in Tables();
      papvLevel1 := papvLevel1[cCur / LEVEL2_ENTRIES := paTable];
      es := es + paTable[..];
      cCur := cCur + LEVEL2_ENTRIES;
      forall j, i | 0 <= j <= n && 0 <= i < LEVEL2_ENTRIES
        ensures papvLevel1[j][i] == es[LEVEL2_ENTRIES * j + i]
      {
        Spot(n, j, i);
        assert j < n ==> old1[j][i] == old2[LEVEL2_ENTRIES * j + i];
      }
    }

    // Entry i of table j of n comes before those of the next table.
    static lemma Spot(n: nat, j: nat, i: nat)
      requires j <= n && i < LEVEL2_ENTRIES
      ensures j < n ==> LEVEL2_ENTRIES * j + i < LEVEL2_ENTRIES * n
    {
    }

    /** RTHandleTableAllocWithCtx without racers; the two flags say whether memory is available. */
    method AllocWithCtx(pvObj: nat, pvCtx: nat, level1Ok: bool, tableOk: bool) returns (rc: Status)
      requires Valid()
      modifies this`v, this`es, this`papvLevel1, this`cCur, this`iFreeHead, this`iFreeTail, this`cCurAllocated, Tables()
      ensures Valid()
      ensures rc.InvalidParameter? <==> IsFreeWord(pvObj)
      ensures rc.NoMoreHandles? <==> !IsFreeWord(pvObj) && old(v).free == [] && old(cCur) == cMax
      ensures rc.Success? ==> Supplied(old(v)).free != [] && v == Grabbed(Supplied(old(v)), pvObj, pvCtx)
      ensures rc.Success? ==> rc.h == HandleOf(uBase, Supplied(old(v)).free[0])
      ensures rc.NoMemory? ==> old(v).free == [] && cCur < cMax && !(level1Ok && tableOk)
      ensures !rc.Success? ==> v == old(v)
      ensures !rc.TryAgain?
    {
      hide Stored, EntriesOk, WellFormed, Grabbed, WithTable, Expanded, HandleOf, IsFreeWord;
      if IsFreeWord(pvObj) {
        return InvalidParameter;
      }
      rc := TryAgain;
      while rc.TryAgain?
        invariant Valid()
        invariant fresh(Tables() - old(Tables()))
        invariant rc.TryAgain? ==>
          v == old(v) || (old(v).free == [] && v == Expanded(old(v)) && v.free != [] && old(cCur) < cMax)
        invariant !rc.InvalidParameter?
        invariant rc.NoMoreHandles? ==> v == old(v) && v.free == [] && cCur == cMax == old(cCur)
        invariant rc.NoMemory? ==> v == old(v) && v.free == [] && cCur < cMax && !(level1Ok && tableOk)
        invariant rc.Success? ==> old(v).free != [] || old(cCur) < cMax
        invariant rc.Success? ==> Supplied(old(v)).free != [] && v == Grabbed(Supplied(old(v)), pvObj, pvCtx)
        invariant rc.Success? ==> rc.h == HandleOf(uBase, Supplied(old(v)).free[0])
        decreases if rc.TryAgain? then (if v.free == [] then 2 else 1) else 0
      {
        HeadNil(v, es, iFreeHead, iFreeTail);
        LiveBelow(v);
        if iFreeHead != NIL_INDEX {
          var h := Grab(pvObj, pvCtx);
          rc := Success(h);
        } else if cCur >= cMax {
          rc := NoMoreHandles;
        } else {
          rc := Expand(level1Ok, tableOk);
        }
      }
    }

    /** One expansion pass: memory is allocated, then the new parts go in. */
    method Expand(level1Ok: bool, tableOk: bool) returns (rc: Status)
      requires Valid() && v.free == [] && cCur < cMax
      modifies this`v, this`es, this`papvLevel1, this`cCur, this`iFreeHead, this`iFreeTail, Tables()
      ensures Valid()
      ensures rc.TryAgain? || (rc.NoMemory? && v == old(v) && !(level1Ok && tableOk) && unchanged(this`cCur))
      ensures rc.TryAgain? ==> v == Expanded(old(v)) && v.free != []
      ensures fresh(Tables() - old(Tables()))
    {
      hide Stored, EntriesOk, WellFormed;
      PlanMakesRoom(v);
      var iLevel1 := cCur / LEVEL2_ENTRIES;
      var cLevel1 := if iLevel1 >= |papvLevel1| then |papvLevel1| + LEVEL1_STEP else 0;
      if cLevel1 > cMax / LEVEL2_ENTRIES {
        cLevel1 := cMax / LEVEL2_ENTRIES;
      }
      if cLevel1 != 0 && !level1Ok {
        return NoMemory;
      }
      if !tableOk {
        return NoMemory;
      }
      var paTable := new Entry[LEVEL2_ENTRIES];
      if cLevel1 != 0 {
        InstallLevel1(cLevel1);
      }
      InstallTable(paTable);
      WithTableFree(WithLevel1(old(v), cLevel1));
      rc := TryAgain;
    }

    // ----- creation and destruction -----

    /** The table that RTHandleTableCreateEx sets up; small ones get their whole first level. */
    constructor (uBase: nat, cMax: nat)
      requires uBase < TWO32 && cMax % LEVEL2_ENTRIES == 0 && cMax <= CMAX_LIMIT
      ensures Valid() && fresh(Tables())
      ensures this.uBase == uBase && this.cMax == cMax
      ensures v.live == map[] && v.free == [] && cCur == 0
    {
      var cLevel1 := cMax / LEVEL2_ENTRIES;
      this.uBase := uBase;
      this.cMax := cMax;
      cCur := 0;
      cCurAllocated := 0;
      papvLevel1 := if cLevel1 < LEVEL1_DYN_ALLOC_THRESHOLD then seq(cLevel1, _ => null) else [];
      iFreeHead := NIL_INDEX;
      iFreeTail := NIL_INDEX;
      v := View(uBase, cMax, 0, if cLevel1 < LEVEL1_DYN_ALLOC_THRESHOLD then cLevel1 else 0, [], map[]);
      es := [];
    }

    /** RTHandleTableCreateEx: the flags and the size are checked, then the size is rounded. memoryOk
        and spinlockOk say whether the memory, and the spinlock of a LOCKED table, are to be had. */
    static method CreateEx(fFlags: nat, uBase: nat, cMax: nat, memoryOk: bool, spinlockOk: bool)
      returns (rc: CreateStatus, t: Table?)
      requires uBase < TWO32 && cMax < TWO32 && fFlags < TWO32
      ensures rc.BadParameter? <==> fFlags > FLAGS_CONTEXT + FLAGS_LOCKED || cMax == 0 || cMax + uBase > TWO32 - 1
      ensures rc.OutOfMemory? ==> !memoryOk
      ensures rc.NoSpinlock? ==> memoryOk && !spinlockOk && fFlags / FLAGS_LOCKED % 2 == 1
      ensures rc.Created? ==> memoryOk && (spinlockOk || fFlags / FLAGS_LOCKED % 2 == 0)
      ensures rc.Created? <==> t != null
      ensures t != null ==> fresh(t) && t.Valid() && t.uBase == uBase && t.cMax == RoundedMax(cMax) && t.v.live == map[]
    {
      t := null;
      if fFlags / (FLAGS_CONTEXT + FLAGS_LOCKED + 1) != 0 || cMax == 0 || TWO32 - 1 - cMax < uBase {
        return BadParameter, null;
      }
      if !memoryOk {
        return OutOfMemory, null;
      }
      if fFlags / FLAGS_LOCKED % 2 == 1 && !spinlockOk {
        return NoSpinlock, null;
      }
      RoundedMaxExact(cMax);
      rc := Created;
      t := new Table(uBase, RoundedMax(cMax));
    }

    /** The callback part of RTHandleTableDestroy: all tables are walked for used entries, and
        the walk ends early once as many were found as are allocated. */
    method DeleteAll() returns (deleted: seq<Deletion>)
      requires Valid()
      ensures deleted == Owed(v, cCur)
    {
      hide EntriesOk, WellFormed, Stored, Owed;
      var cLeft: nat := cCurAllocated;
      deleted := [];
      var i1 := 0;
      OwedNone(v);
      StoredShape();
      while cLeft > 0 && i1 < |papvLevel1|
        invariant Valid() && i1 <= |papvLevel1|
        invariant deleted == Owed(v, Upto(i1))
        invariant cLeft + |deleted| == |v.live|
        decreases |papvLevel1| - i1
      {
        if papvLevel1[i1] != null {
          deleted, cLeft := DeleteTable(i1, deleted, cLeft);
        }
        i1 := i1 + 1;
      }
      StoredShape();
      OwedComplete(v, Upto(i1), cCur);
    }

    // The walk has seen the entries of the first i1 tables.
    ghost function Upto(i1: nat): nat
      reads this`cCur
    {
      if i1 * LEVEL2_ENTRIES <= cCur then i1 * LEVEL2_ENTRIES else cCur
    }

    lemma StoredShape()
      requires Valid()
      ensures cCur % LEVEL2_ENTRIES == 0 && cCur / LEVEL2_ENTRIES <= |papvLevel1|
      ensures forall j :: 0 <= j < |papvLevel1| ==> (papvLevel1[j] != null <==> j < cCur / LEVEL2_ENTRIES)
      ensures forall i :: i in v.live ==> i < cCur
    {
    }

    /** Calls back for the used entries of one second-level table. */
    method DeleteTable(i1: nat, before: seq<Deletion>, cBefore: nat) returns (deleted: seq<Deletion>, cLeft: nat)
      requires Valid() && i1 < cCur / LEVEL2_ENTRIES && i1 < |papvLevel1| && papvLevel1[i1] != null
      requires before == Owed(v, i1 * LEVEL2_ENTRIES) && cBefore + |before| == |v.live|
      ensures Valid() && deleted == Owed(v, (i1 + 1) * LEVEL2_ENTRIES) && cLeft + |deleted| == |v.live|
    {
      hide EntriesOk, WellFormed, Stored, Owed, IsFreeWord;
      deleted, cLeft := before, cBefore;
      var i := 0;
      while i < LEVEL2_ENTRIES
        invariant Valid() && i <= LEVEL2_ENTRIES
        invariant deleted == Owed(v, i1 * LEVEL2_ENTRIES + i)
        invariant cLeft + |deleted| == |v.live|
      {
        OwedStep(i1 * LEVEL2_ENTRIES + i);
        var e := Get(i1 * LEVEL2_ENTRIES + i);
        if !IsFreeWord(e.pvObj) {
          deleted := deleted + [Deletion((uBase + i + i1 * LEVEL2_ENTRIES) % TWO32, e.pvObj, e.pvCtx)];
          cLeft := cLeft - 1;
        }
        i := i + 1;
      }
    }

    /** Entry k owes a callback exactly when it is not marked free. */
    lemma OwedStep(k: nat)
      requires Valid() && k < cCur
      ensures k < |es|
      ensures Owed(v, k + 1) == Owed(v, k) +
        (if IsFreeWord(es[k].pvObj) then [] else [Deletion((uBase + k) % TWO32, es[k].pvObj, es[k].pvCtx)])
      ensures |Owed(v, k + 1)| <= |v.live|
    {
      hide WellFormed, EntriesOk, IsFreeWord;
      EntryTells(k);
      OwedBound(v, k + 1);
    }
  }

  lemma OwedNone(v: View)
    ensures Owed(v, 0) == []
  {
  }

  lemma LiveBelow(v: View)
    requires WellFormed(v)
    ensures forall i :: i in v.live ==> i < v.cCur
    ensures v.uBase < TWO32 && v.cMax <= CMAX_LIMIT && v.cCur <= v.cMax
  {
  }

  lemma TailTells(v: View, es: seq<Entry>, head: nat, tail: nat)
    requires WellFormed(v) && EntriesOk(v, es, head, tail)
    ensures tail == NIL_INDEX <==> v.free == []
    ensures |es| == v.cCur
  {
  }

  lemma ReleasedSize(v: View, i: nat)
    requires i in v.live
    ensures |Released(v, i).live| == |v.live| - 1 >= 0
    ensures var r := Released(v, i);
      r.uBase == v.uBase && r.cMax == v.cMax && r.cCur == v.cCur && r.cLevel1 == v.cLevel1
  {
  }

  lemma GrabbedSize(v: View, es: seq<Entry>, head: nat, tail: nat, obj: nat, ctx: nat)
    requires WellFormed(v) && EntriesOk(v, es, head, tail) && v.free != []
    ensures |Grabbed(v, obj, ctx).live| == |v.live| + 1
    ensures head == v.free[0] && head < v.cCur == |es|
  {
  }

  lemma WithLevel1Entries(v: View, planned: nat, es: seq<Entry>, head: nat, tail: nat)
    requires EntriesOk(v, es, head, tail)
    ensures EntriesOk(WithLevel1(v, planned), es, head, tail)
    ensures WithLevel1(v, planned).live == v.live
  {
  }

  lemma WithTableShape(v: View)
    ensures var w := WithTable(v);
      w.live == v.live && w.uBase == v.uBase && w.cMax == v.cMax
      && w.cCur == v.cCur + LEVEL2_ENTRIES && w.cLevel1 == v.cLevel1
  {
  }

  lemma FreshLength(t: seq<Entry>, cCur: nat)
    requires FreshEntries(t, cCur)
    ensures |t| == LEVEL2_ENTRIES
  {
  }

  lemma TailBelow(v: View, es: seq<Entry>, head: nat, tail: nat)
    requires WellFormed(v) && EntriesOk(v, es, head, tail) && v.free != []
    ensures tail < v.cCur
  {
  }

  lemma HeadNil(v: View, es: seq<Entry>, head: nat, tail: nat)
    requires WellFormed(v) && EntriesOk(v, es, head, tail)
    ensures head == NIL_INDEX <==> v.free == []
  {
  }

  lemma WithTableFree(v: View)
    ensures WithTable(v).free != []
  {
  }

  /** The live indexes below hi. */
  ghost function LiveUnder(v: View, hi: nat): set<nat> {
    set i | i in v.live && i < hi
  }

  /** There are as many callbacks owed below hi as live indexes there. */
  lemma {:induction false} OwedCount(v: View, hi: nat)
    ensures |Owed(v, hi)| == |LiveUnder(v, hi)|
  {
    if hi == 0 {
      assert LiveUnder(v, 0) == {};
    } else {
      OwedCount(v, hi - 1);
      if hi - 1 in v.live {
        assert LiveUnder(v, hi) == LiveUnder(v, hi - 1) + {hi - 1};
      } else {
        assert LiveUnder(v, hi) == LiveUnder(v, hi - 1);
      }
    }
  }

  lemma OwedBound(v: View, hi: nat)
    ensures |Owed(v, hi)| <= |v.live|
  {
    OwedCount(v, hi);
    SubsetSize(LiveUnder(v, hi), v.live.Keys);
  }

  lemma {:induction false} SubsetSize(a: set<nat>, b: set<nat>)
    requires a <= b
    ensures |a| <= |b| && (|a| == |b| ==> a == b)
    decreases |a|
  {
    if a != {} {
      var x :| x in a;
      SubsetSize(a - {x}, b - {x});
      assert a == (a - {x}) + {x} && b == (b - {x}) + {x};
    } else if |b| == 0 {
      assert b == {};
    }
  }

  /** Nothing is owed in between when no live index lies there. */
  lemma {:induction false} OwedSkip(v: View, lo: nat, hi: nat)
    requires lo <= hi && forall i :: lo <= i < hi ==> i !in v.live
    ensures Owed(v, hi) == Owed(v, lo)
    decreases hi - lo
  {
    if lo < hi { OwedSkip(v, lo, hi - 1); }
  }

  /** The early exit misses nothing: once all allocated entries were found, or all tables seen,
      the callbacks made are all that are owed. */
  lemma OwedComplete(v: View, hi: nat, cCur: nat)
    requires hi <= cCur && forall i :: i in v.live ==> i < cCur
    requires |Owed(v, hi)| == |v.live| || hi == cCur
    ensures Owed(v, hi) == Owed(v, cCur)
  {
    if hi != cCur {
      OwedCount(v, hi);
      SubsetSize(LiveUnder(v, hi), v.live.Keys);
      forall i | hi <= i < cCur ensures i !in v.live { assert i !in LiveUnder(v, hi); }
      OwedSkip(v, hi, cCur);
    }
  }

  /** Every live handle is owed exactly one callback, with its own object and context. */
  lemma {:induction false} OwedOnce(v: View, hi: nat, i: nat)
    requires i < hi && i in v.live
    ensures Deletion(HandleOf(v.uBase, i), v.live[i].obj, v.live[i].ctx) in Owed(v, hi)
  {
    var d := Deletion(HandleOf(v.uBase, i), v.live[i].obj, v.live[i].ctx);
    if i == hi - 1 {
      assert Owed(v, hi)[|Owed(v, hi - 1)|] == d;
    } else {
      OwedOnce(v, hi - 1, i);
      var k :| 0 <= k < |Owed(v, hi - 1)| && Owed(v, hi - 1)[k] == d;
      assert Owed(v, hi)[k] == d;
    }
  }

  lemma {:induction false} OwedDistinct(v: View, hi: nat)
    requires v.uBase < TWO32 && hi <= TWO32
    ensures forall k :: 0 <= k < |Owed(v, hi)| ==> Owed(v, hi)[k].h < TWO32 && IndexOf(v.uBase, Owed(v, hi)[k].h) < hi
    ensures forall j, k :: 0 <= j < k < |Owed(v, hi)| ==> Owed(v, hi)[j].h != Owed(v, hi)[k].h
  {
    if hi > 0 {
      OwedDistinct(v, hi - 1);
      HandleRoundTrip(v.uBase, hi - 1);
    }
  }
}
