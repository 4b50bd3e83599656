/** Whole sequences of calls on a simple heap in memory (common/alloc/heapsimple.c): the block map
    follows the run of HeapRuns, and payloads keep their contents until they are freed. */
module HeapCalls {
  import opened HeapView
  import opened HeapMemory
  import opened HeapAlloc
  import opened HeapRuns
  import opened HeapWords
  import opened SimpleHeap

  /** What the heap demands of one call: only blocks are freed, and never the padding; and the
      request is none the search goes wrong on (see HeapRuns.NeverMisfitsExactly). */
  ghost predicate Legal(m: View, at: int, op: Op) {
    match op
    case Allocate(cb, align) => cb >= 1 && 0 < align < WORD && !Misfit(m, at, cb, align)
    case Release(p) => p in m && !m[p].kind.Pad?
  }

  ghost predicate AllLegal(m: View, at: int, ops: seq<Op>)
    decreases |ops|
  {
    ops == [] || (Legal(m, at, ops[0]) && AllLegal(Apply(m, at, ops[0]), at, ops[1..]))
  }

  /** Block b is still live, no smaller, and its payload is as it was. */
  ghost predicate BlockKept(m: View, s: seq<Granule>, m': View, s': seq<Granule>, b: int)
    requires b in m
  {
    && b in m' && m'[b].kind.Live? && m'[b].cb >= m[b].cb && |s'| == |s|
    && forall a :: b < a < End(m, b) && 0 <= a < |s| ==> s'[a] == s[a]
  }

  /** The live blocks that ops do not free are kept. */
  ghost predicate LiveKept(m: View, s: seq<Granule>, m': View, s': seq<Granule>, ops: seq<Op>) {
    forall b :: b in m && m[b].kind.Live? && Release(b) !in ops ==> BlockKept(m, s, m', s', b)
  }

  lemma ReleasedOther(m: View, n: int, p: int, b: int)
    requires WellFormed(m, n) && p in m && m[p].kind.Live? && b in m && m[b].kind.Live? && b != p
    ensures b in Released(m, p) && Released(m, p)[b] == m[b]
  {
    ReleasedEdges(m, n, p);
  }

  lemma PayloadOf(m: View, b: int, a: int)
    requires b in m && m[b].kind.Live? && b < a < End(m, b)
    ensures InPayload(m, a)
  {
  }

  lemma AllocateKeepsLive(m: View, s: seq<Granule>, m': View, s': seq<Granule>, op: Op)
    requires PayloadsKept(m, s, s')
    requires forall c :: c in m && m[c].kind.Live? ==> c in m' && m'[c].kind.Live? && m'[c].cb >= m[c].cb
    ensures LiveKept(m, s, m', s', [op])
  {
    forall b | b in m && m[b].kind.Live? ensures BlockKept(m, s, m', s', b) {
      forall a | b < a < End(m, b) && 0 <= a < |s| ensures s'[a] == s[a] { PayloadOf(m, b, a); }
    }
  }

  lemma ReleaseKeepsLive(m: View, s: seq<Granule>, m': View, s': seq<Granule>, p: int)
    requires WellFormed(m, |s|) && p in m && PayloadsKept(m', s, s')
    requires m' == if m[p].kind.Live? then Released(m, p) else m
    ensures LiveKept(m, s, m', s', [Release(p)])
  {
    forall b | b in m && m[b].kind.Live? && Release(b) !in [Release(p)] ensures BlockKept(m, s, m', s', b) {
      assert b != p;
      if m[p].kind.Live? { ReleasedOther(m, |s|, p, b); }
      forall a | b < a < End(m, b) && 0 <= a < |s| ensures s'[a] == s[a] { PayloadOf(m', b, a); }
    }
  }

  lemma LiveKeptOn(m0: View, s0: seq<Granule>, m: View, s: seq<Granule>,
                   m': View, s': seq<Granule>, done: seq<Op>, op: Op)
    requires LiveKept(m0, s0, m, s, done) && LiveKept(m, s, m', s', [op])
    ensures LiveKept(m0, s0, m', s', done + [op])
  {
    forall b | b in m0 && m0[b].kind.Live? && Release(b) !in done + [op] ensures BlockKept(m0, s0, m', s', b) {
      assert Release(b) !in done && Release(b) !in [op];
      assert BlockKept(m0, s0, m, s, b) && BlockKept(m, s, m', s', b);
    }
  }

  /** One call on the heap. */
  method Call(heap: Heap, op: Op)
    requires heap.Valid() && Legal(heap.m, heap.base, op)
    modifies heap, heap.mem
    ensures heap.Valid() && heap.base == old(heap.base)
    ensures heap.m == Apply(old(heap.m), heap.base, op)
    ensures LiveKept(old(heap.m), old(heap.mem[..]), heap.m, heap.mem[..], [op])
  {
    match op
    case Allocate(cb, align) =>
      hide Sound, Misfit, Apply, LiveKept;
      CallAllocate(heap, cb, align);
    case Release(p) =>
      hide Sound, Apply, LiveKept;
      CallRelease(heap, p);
  }

  method CallAllocate(heap: Heap, cb: nat, align: nat)
    requires heap.Valid() && cb >= 1 && 0 < align < WORD && !Misfit(heap.m, heap.base, cb, align)
    modifies heap, heap.mem
    ensures heap.Valid() && heap.base == old(heap.base)
    ensures heap.m == Apply(old(heap.m), heap.base, Allocate(cb, align))
    ensures LiveKept(old(heap.m), old(heap.mem[..]), heap.m, heap.mem[..], [Allocate(cb, align)])
  {
    ghost var m0, s0 := heap.m, heap.mem[..];
    hide *;
    ValidIsWellFormed(heap);
    var r, b := heap.AllocBlock(cb, align);
    AllocationStep(m0, s0, heap.m, heap.mem[..], heap.base, r, b, cb, align);
  }

  lemma AllocationStep(m: View, s: seq<Granule>, m': View, s': seq<Granule>,
                       at: int, r: AllocResult, b: int, cb: nat, align: nat)
    requires WellFormed(m, |s|) && 0 < align < WORD && cb >= 1 && !Misfit(m, at, cb, align)
    requires UnitsAllocated(m, m', at, r, b, cb, align) && PayloadsKept(m, s, s')
    ensures m' == Apply(m, at, Allocate(cb, align)) && LiveKept(m, s, m', s', [Allocate(cb, align)])
  {
    hide WellFormed, Misfit, PayloadsKept, NothingFits, Picked, IsAllocated, Granted, Apply, LiveKept;
    if r.Block? {
      AllocatedIsApply(m, m', |s|, at, b, cb, align);
      GrantedLive(m, m', at, b, r.p - at, cb, align);
    } else {
      NothingToApply(m, at, cb, align);
    }
    AllocateKeepsLive(m, s, m', s', Allocate(cb, align));
  }

  method CallRelease(heap: Heap, p: int)
    requires heap.Valid() && p in heap.m && !heap.m[p].kind.Pad?
    modifies heap, heap.mem
    ensures heap.Valid() && heap.base == old(heap.base)
    ensures heap.m == Apply(old(heap.m), heap.base, Release(p))
    ensures LiveKept(old(heap.m), old(heap.mem[..]), heap.m, heap.mem[..], [Release(p)])
  {
    ghost var m0, s0 := heap.m, heap.mem[..];
    hide Heap.Valid, Sound, WellFormed, Released, PayloadsKept, Apply, LiveKept;
    ValidIsWellFormed(heap);
    heap.FreeBlock(heap.base + p);
    ReleaseIsApply(m0, heap.base, p);
    ReleaseKeepsLive(m0, s0, heap.m, heap.mem[..], p);
  }

  lemma ValidIsWellFormed(heap: Heap)
    requires heap.Valid()
    ensures WellFormed(heap.m, heap.mem.Length)
  {
  }

  lemma ReleaseIsApply(m: View, at: int, p: int)
    requires p in m
    ensures Apply(m, at, Release(p)) == if m[p].kind.Live? then Released(m, p) else m
  {
  }

  lemma GrantedLive(m: View, m': View, at: int, b: int, p: int, cb: nat, align: int)
    requires align > 0 && Granted(m, m', at, b, p, cb, align)
    ensures forall c :: c in m && m[c].kind.Live? ==> c in m' && m'[c].kind.Live? && m'[c].cb >= m[c].cb
  {
  }

  /** Any sequence of calls: the heap's block map is that of the run, and whatever is live at the
      start and not freed on the way is still live with the same contents. */
  method Calls(heap: Heap, ops: seq<Op>)
    requires heap.Valid() && AllLegal(heap.m, heap.base, ops)
    modifies heap, heap.mem
    ensures heap.Valid() && heap.base == old(heap.base)
    ensures heap.m == Run(old(heap.m), heap.base, ops)
    ensures LiveKept(old(heap.m), old(heap.mem[..]), heap.m, heap.mem[..], ops)
  {
    ghost var m0, s0 := heap.m, heap.mem[..];
    hide *;
    DoneNothing(m0, s0, heap.base, ops);
    var i := 0;
    while i < |ops|
      invariant i <= |ops| && heap.Valid() && heap.base == old(heap.base)
      invariant Done(m0, s0, heap.m, heap.mem[..], heap.base, ops, i)
    {
      ghost var m, s := heap.m, heap.mem[..];
      NextIsLegal(m0, s0, m, s, heap.base, ops, i);
      Call(heap, ops[i]);
      DoneOneMore(m0, s0, m, s, heap.m, heap.mem[..], heap.base, ops, i);
      i := i + 1;
    }
    DoneAll(m0, s0, heap.m, heap.mem[..], heap.base, ops);
  }

  /** The first i calls have been made. */
  ghost predicate Done(m0: View, s0: seq<Granule>, m: View, s: seq<Granule>, at: int, ops: seq<Op>, i: nat)
    requires i <= |ops|
  {
    && AllLegal(m, at, ops[i..]) && Run(m, at, ops[i..]) == Run(m0, at, ops)
    && LiveKept(m0, s0, m, s, ops[..i])
  }

  lemma DoneNothing(m: View, s: seq<Granule>, at: int, ops: seq<Op>)
    requires AllLegal(m, at, ops)
    ensures Done(m, s, m, s, at, ops, 0)
  {
    assert ops[0..] == ops;
    hide AllLegal, Run;
  }

  lemma NextIsLegal(m0: View, s0: seq<Granule>, m: View, s: seq<Granule>, at: int, ops: seq<Op>, i: nat)
    requires i < |ops| && Done(m0, s0, m, s, at, ops, i)
    ensures Legal(m, at, ops[i])
  {
  }

  lemma DoneOneMore(m0: View, s0: seq<Granule>, m: View, s: seq<Granule>, m': View, s': seq<Granule>,
                    at: int, ops: seq<Op>, i: nat)
    requires i < |ops| && Done(m0, s0, m, s, at, ops, i)
    requires m' == Apply(m, at, ops[i]) && LiveKept(m, s, m', s', [ops[i]])
    ensures Done(m0, s0, m', s', at, ops, i + 1)
  {
    hide Apply, Legal, LiveKept;
    assert ops[i..][0] == ops[i] && ops[i..][1..] == ops[i + 1..];
    LiveKeptOn(m0, s0, m, s, m', s', ops[..i], ops[i]);
    assert ops[..i + 1] == ops[..i] + [ops[i]];
  }

  lemma DoneAll(m0: View, s0: seq<Granule>, m: View, s: seq<Granule>, at: int, ops: seq<Op>)
    requires Done(m0, s0, m, s, at, ops, |ops|)
    ensures m == Run(m0, at, ops) && LiveKept(m0, s0, m, s, ops)
  {
    assert ops[..|ops|] == ops && ops[|ops|..] == [];
    hide LiveKept;
  }

  // ----- calls in bytes, at the default alignment -----

  /** RTHeapSimpleAlloc(cb, 0) and RTHeapSimpleFree(pv). */
  datatype ByteCall = AllocBytes(cb: nat) | FreeBytes(pv: nat)

  /** The call as a step of a run. */
  function StepOf(call: ByteCall, at: int): Op {
    match call
    case AllocBytes(cb) => Allocate((Needed(cb) + 31) / 32, 1)
    case FreeBytes(pv) => Release(pv / 32 - 1 - at)
  }

  function StepsOf(calls: seq<ByteCall>, at: int): (ops: seq<Op>)
    ensures DefaultAligned(ops)
    decreases |calls|
  {
    if calls == [] then [] else [StepOf(calls[0], at)] + StepsOf(calls[1..], at)
  }

  /** Sizes that rounding does not wrap; NULL, or what the heap handed out, is freed. */
  ghost predicate ByteLegal(m: View, at: int, call: ByteCall) {
    match call
    case AllocBytes(cb) => cb <= TWO64 - 32
    case FreeBytes(pv) =>
      pv != 0 ==> pv % 32 == 0 && pv / 32 - 1 - at in m && !m[pv / 32 - 1 - at].kind.Pad?
  }

  ghost predicate BytesLegal(m: View, at: int, calls: seq<ByteCall>)
    decreases |calls|
  {
    calls == []
    || (ByteLegal(m, at, calls[0]) && BytesLegal(Apply(m, at, StepOf(calls[0], at)), at, calls[1..]))
  }

  method CallBytes(heap: Heap, call: ByteCall)
    requires heap.Valid() && ByteLegal(heap.m, heap.base, call)
    modifies heap, heap.mem
    ensures heap.Valid() && heap.base == old(heap.base)
    ensures heap.m == Apply(old(heap.m), heap.base, StepOf(call, heap.base))
  {
    match call
    case AllocBytes(cb) => CallAllocBytes(heap, cb);
    case FreeBytes(pv) => CallFreeBytes(heap, pv);
  }

  method CallAllocBytes(heap: Heap, cb: nat)
    requires heap.Valid() && cb <= TWO64 - 32
    modifies heap, heap.mem
    ensures heap.Valid() && heap.base == old(heap.base)
    ensures heap.m == Apply(old(heap.m), heap.base, StepOf(AllocBytes(cb), heap.base))
  {
    ghost var m0 := heap.m;
    hide *;
    var r, b := heap.Alloc(cb, 0);
    AllocStepIs(m0, heap.m, heap.base, r, b, cb);
  }

  method CallFreeBytes(heap: Heap, pv: nat)
    requires heap.Valid() && ByteLegal(heap.m, heap.base, FreeBytes(pv))
    modifies heap, heap.mem
    ensures heap.Valid() && heap.base == old(heap.base)
    ensures heap.m == Apply(old(heap.m), heap.base, StepOf(FreeBytes(pv), heap.base))
  {
    ghost var m0 := heap.m;
    hide *;
    NothingBelow(heap);
    MayFree(m0, heap.base, pv);
    heap.Free(pv);
    FreeStepIs(m0, heap.m, heap.base, pv);
  }

  lemma MayFree(m: View, at: int, pv: nat)
    requires ByteLegal(m, at, FreeBytes(pv))
    ensures pv != 0 ==> pv % 32 == 0 && pv / 32 - 1 - at in m && !m[pv / 32 - 1 - at].kind.Pad?
  {
  }

  lemma FreeStepIs(m: View, m': View, at: int, pv: nat)
    requires -1 - at !in m && (pv != 0 ==> pv / 32 - 1 - at in m)
    requires m' == if pv != 0 && m[pv / 32 - 1 - at].kind.Live? then Released(m, pv / 32 - 1 - at) else m
    ensures m' == Apply(m, at, StepOf(FreeBytes(pv), at))
  {
    hide Released;
  }

  lemma NothingBelow(heap: Heap)
    requires heap.Valid()
    ensures heap.base > 0 && -1 - heap.base !in heap.m
  {
  }

  lemma AllocStepIs(m: View, m': View, at: int, r: AllocResult, b: int, cb: nat)
    requires cb <= TWO64 - 32 && BytesAllocated(m, m', at, r, b, cb, 0)
    ensures m' == Apply(m, at, StepOf(AllocBytes(cb), at))
  {
    hide Apply, Misfit, NothingFits, NoPlace, IsLowestPlace, Granted, RoundedSize, Needed;
  }

  /** Any sequence of allocations at the default alignment and frees follows a run of HeapRuns; and
      whenever nothing is live after it, a heap that was fresh is fresh again. */
  method CallsInBytes(heap: Heap, calls: seq<ByteCall>)
    requires heap.Valid() && BytesLegal(heap.m, heap.base, calls)
    modifies heap, heap.mem
    ensures heap.Valid() && heap.base == old(heap.base)
    ensures heap.m == Run(old(heap.m), heap.base, StepsOf(calls, heap.base))
    ensures old(heap.m) == FreshMap(heap.mem.Length) && heap.mem.Length >= 4 && LiveSet(heap.m) == {} ==>
      heap.m == old(heap.m)
  {
    ghost var m0 := heap.m;
    var i := 0;
    hide *;
    assert calls[0..] == calls;
    while i < |calls|
      invariant 0 <= i <= |calls| && heap.Valid() && heap.base == old(heap.base)
      invariant BytesLegal(heap.m, heap.base, calls[i..])
      invariant Run(heap.m, heap.base, StepsOf(calls[i..], heap.base)) == Run(m0, heap.base, StepsOf(calls, heap.base))
    {
      ByteStep(heap.m, heap.base, calls, i);
      CallBytes(heap, calls[i]);
      i := i + 1;
    }
    NoBytes(heap.m, heap.base, calls[i..]);
    FreshAgain(heap.mem.Length, heap.base, StepsOf(calls, heap.base));
  }

  lemma ByteStep(m: View, at: int, calls: seq<ByteCall>, i: nat)
    requires i < |calls| && BytesLegal(m, at, calls[i..])
    ensures ByteLegal(m, at, calls[i])
    ensures var m' := Apply(m, at, StepOf(calls[i], at));
      && BytesLegal(m', at, calls[i + 1..])
      && Run(m, at, StepsOf(calls[i..], at)) == Run(m', at, StepsOf(calls[i + 1..], at))
  {
    hide Apply, ByteLegal;
    assert calls[i..][0] == calls[i] && calls[i..][1..] == calls[i + 1..];
    assert StepsOf(calls[i..], at)[1..] == StepsOf(calls[i + 1..], at);
  }

  lemma NoBytes(m: View, at: int, calls: seq<ByteCall>)
    requires calls == []
    ensures Run(m, at, StepsOf(calls, at)) == m
  {
  }

  lemma FreshAgain(n: int, at: int, ops: seq<Op>)
    requires DefaultAligned(ops)
    ensures n >= 4 && LiveSet(Run(FreshMap(n), at, ops)) == {} ==> Run(FreshMap(n), at, ops) == FreshMap(n)
  {
    if n >= 4 && LiveSet(Run(FreshMap(n), at, ops)) == {} {
      assert Run(Run(FreshMap(n), at, ops), at, Frees([])) == Run(FreshMap(n), at, ops);
      FullCircle(n, at, ops, []);
    }
  }
}
