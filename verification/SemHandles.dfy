/** The event semaphores of vboxdrv/SUPDrvSem.c: handles in a session's table whose retain and
    delete callbacks take and drop references in the same session (vboxdrv/SUPDrv.c). Operations
    of many threads interleave, and other objects and sessions take any steps of RefView. */
module SemHandles {
  import H = HandleView
  import opened RefView
  import opened Sequences

  /** What a thread inside one of the entry points owns: the reference that create will hand to
      the table, the one that lookup took for signal, reset or wait, or the one or two that
      close has still to release. */
  datatype Op = Idle | Creating(o: nat) | Using(o: nat, ctx: nat) | Closing(o: nat, refs: nat)

  /** A session is open; or its handle table is being destroyed, with entries below k done; or
      its list of references is being emptied. */
  datatype Phase = Open | Deleting(k: nat) | Emptying

  /** The device, the owning session and its table; kinds tells event semaphores from
      multi-event ones, by the handle context they were created for. */
  datatype State = State(dev: Dev, s: nat, table: H.View, kinds: map<nat, nat>, ops: seq<Op>, phase: Phase)

  datatype Step =
    | Register(t: nat, ctx: nat, fromFree: bool)
    | PutHandle(t: nat)
    | NoHandle(t: nat)                   // the handle allocation failed
    | GrowTable
    | Look(t: nat, h: nat, ctx: nat)     // the lookup of signal, reset and wait
    | Close(t: nat, h: nat, ctx: nat)    // the handle free of close
    | Drop(t: nat)                       // the next ObjRelease of an operation
    | Other(st: RefView.Step)
    | BeginDelete
    | DeleteNext
    | BeginEmpty
    | PopOwn                             // an iteration of the loop that empties the session's list

  // ----- object pointers as table words -----

  /** Objects live at non-null, aligned addresses. */
  function Ptr(o: nat): nat {
    8 * o + 8
  }

  function ObjOf(w: nat): nat {
    if w >= 8 then (w - 8) / 8 else 0
  }

  lemma PtrIsObject(o: nat)
    ensures !H.IsFreeWord(Ptr(o)) && Ptr(o) != 0 && ObjOf(Ptr(o)) == o
  {
  }

  // ----- the references that handles and operations hold -----

  function Held(op: Op, o: nat): nat {
    match op
    case Idle => 0
    case Creating(p) => if p == o then 1 else 0
    case Using(p, _) => if p == o then 1 else 0
    case Closing(p, refs) => if p == o then refs else 0
  }

  function HeldSum(ops: seq<Op>, o: nat): nat {
    if ops == [] then 0 else Held(ops[0], o) + HeldSum(ops[1..], o)
  }

  lemma {:induction false} HeldUpdate(ops: seq<Op>, t: nat, op: Op, o: nat)
    requires t < |ops|
    ensures HeldSum(ops[t := op], o) == HeldSum(ops, o) - Held(ops[t], o) + Held(op, o)
    ensures Held(ops[t], o) <= HeldSum(ops, o)
  {
    if t == 0 {
      assert ops[0 := op][1..] == ops[1..];
    } else {
      HeldUpdate(ops[1..], t - 1, op, o);
      assert ops[t := op][1..] == ops[1..][t - 1 := op];
    }
  }

  ghost predicate HasHandle(live: map<nat, H.Item>, o: nat) {
    exists i :: i in live && live[i].obj == Ptr(o)
  }

  ghost function HandleRefs(live: map<nat, H.Item>, o: nat): nat {
    if HasHandle(live, o) then 1 else 0
  }

  // ----- the invariant -----

  /** All references to a semaphore are in the owning session: one for a live handle, and those
      of the operations in flight; or none at all, once its record was taken away. */
  ghost predicate RefsOk(st: State, o: nat) {
    && o < st.dev.next && st.s < |st.dev.sessions|
    && Total(st.dev.sessions, o) == Count(st.dev.sessions[st.s], o)
    && (Total(st.dev.sessions, o) == HandleRefs(st.table.live, o) + HeldSum(st.ops, o)
        || (st.phase.Emptying? && Total(st.dev.sessions, o) == 0))
  }

  ghost predicate OpOk(st: State, op: Op) {
    match op
    case Idle => true
    case Creating(o) => o in st.kinds && !HasHandle(st.table.live, o)
    case Using(o, ctx) => o in st.kinds && st.kinds[o] == ctx
    case Closing(o, refs) => o in st.kinds && 1 <= refs <= 2
  }

  /** A table entry holds one semaphore, under the context of its kind. */
  ghost predicate EntryOk(st: State, i: nat) {
    && i in st.table.live
    && var item := st.table.live[i];
      var o := ObjOf(item.obj);
      o in st.kinds && item == H.Item(Ptr(o), st.kinds[o])
  }

  ghost predicate OneEntryEach(live: map<nat, H.Item>) {
    forall i, j :: i in live && j in live && live[i].obj == live[j].obj ==> i == j
  }

  ghost predicate TableOk(st: State) {
    && (forall i :: i in st.table.live ==> EntryOk(st, i))
    && OneEntryEach(st.table.live)
    && (st.phase.Open? ==> H.WellFormed(st.table))
    && (st.phase.Deleting? ==> forall i :: i in st.table.live ==> st.phase.k <= i < st.table.cCur)
    && (st.phase.Emptying? ==> st.table.live == map[])
  }

  ghost predicate OpsOk(st: State) {
    && (forall t :: 0 <= t < |st.ops| ==> OpOk(st, st.ops[t]))
    // Two threads never create the same object.
    && (forall t, u :: 0 <= t < u < |st.ops| && st.ops[t].Creating? && st.ops[u].Creating? ==>
        st.ops[t].o != st.ops[u].o)
  }

  ghost predicate Inv(st: State) {
    && RefView.Inv(st.dev) && st.s < |st.dev.sessions|
    && TableOk(st) && OpsOk(st)
    && (forall o :: o in st.kinds ==> RefsOk(st, o))
  }

  // ----- the steps -----

  /** The steps other parts of the driver take: nobody else holds a semaphore object's pointer,
      and only the session's own cleanup (PopOwn) empties its list. */
  predicate Foreign(st: State, r: RefView.Step) {
    match r
    case Register(_, _) => true
    case AddRef(_, o, _) => o !in st.kinds
    case Release(_, o) => o !in st.kinds
    case Pop(s) => s != st.s
    case Destruct(_) => true
    case FreeMem(_) => true
  }

  predicate Enabled(st: State, e: Step) {
    st.s < |st.dev.sessions| &&
    match e
    case Register(t, ctx, fromFree) => t < |st.ops| && st.ops[t].Idle? && (fromFree ==> st.dev.cUsageFree > 0)
    case PutHandle(t) => t < |st.ops| && st.ops[t].Creating? && st.phase.Open?
      && st.table.free != [] && st.ops[t].o in st.kinds
    case NoHandle(t) => t < |st.ops| && st.ops[t].Creating? && st.ops[t].o in st.dev.objs
    case GrowTable => st.phase.Open? && st.table.free == [] && st.table.cCur < st.table.cMax
    case Look(t, h, ctx) => t < |st.ops| && st.ops[t].Idle? && st.phase.Open? && h < H.TWO32
    case Close(t, h, ctx) => t < |st.ops| && st.ops[t].Idle? && st.phase.Open? && h < H.TWO32
    case Drop(t) => t < |st.ops| && (st.ops[t].Using? || st.ops[t].Closing?) && st.ops[t].o in st.dev.objs
    case Other(r) => Foreign(st, r)
    case BeginDelete => st.phase.Open?
    case DeleteNext => st.phase.Deleting? && st.phase.k < st.table.cCur
    case BeginEmpty => st.phase.Deleting? && st.phase.k >= st.table.cCur
    case PopOwn => st.phase.Emptying? && st.dev.sessions[st.s] != []
  }

  /** The record a non-blocking AddRef brings along: a spare one or none. */
  function Spare(d: Dev): Record {
    if d.cUsageFree > 0 then FromFree else NoRecord
  }

  /** The retain callback succeeds unless it needs a record and has none (VERR_TRY_AGAIN), or the
      object is being destroyed. */
  predicate Retains(d: Dev, s: nat, o: nat)
    requires s < |d.sessions|
  {
    o in d.objs && !d.objs[o].fDead && (Spare(d).FromFree? || Find(d.sessions[s], o) < |d.sessions[s]|)
  }

  function Looked(st: State, t: nat, h: nat, ctx: nat): State
    requires st.s < |st.dev.sessions| && t < |st.ops|
  {
    var w := H.Found(st.table, h, ctx);
    if w == 0 || !Retains(st.dev, st.s, ObjOf(w)) then st else
    st.(dev := Referenced(st.dev, st.s, ObjOf(w), Spare(st.dev)), ops := st.ops[t := Using(ObjOf(w), ctx)])
  }

  function Closed(st: State, t: nat, h: nat, ctx: nat): State
    requires st.s < |st.dev.sessions| && t < |st.ops|
  {
    var w := H.Found(st.table, h, ctx);
    if w == 0 || !Retains(st.dev, st.s, ObjOf(w)) then st else
    st.(dev := Referenced(st.dev, st.s, ObjOf(w), Spare(st.dev)), ops := st.ops[t := Closing(ObjOf(w), 2)],
        table := H.Released(st.table, H.IndexOf(st.table.uBase, h)))
  }

  function LessOne(op: Op): Op {
    if op.Closing? && op.refs == 2 then Closing(op.o, 1) else Idle
  }

  /** The delete callback for index k: the table's reference is released. */
  function Deleted(st: State, k: nat): State
    requires st.s < |st.dev.sessions|
  {
    if k !in st.table.live then st.(phase := Deleting(k + 1)) else
    var o := ObjOf(st.table.live[k].obj);
    st.(phase := Deleting(k + 1), table := st.table.(live := st.table.live - {k}),
        dev := if o in st.dev.objs then RefView.Released(st.dev, st.s, o) else st.dev)
  }

  function After(st: State, e: Step): State {
    if !Enabled(st, e) then st else
    match e
    case Register(t, ctx, fromFree) =>
      st.(dev := Registered(st.dev, st.s, fromFree), kinds := st.kinds[st.dev.next := ctx],
          ops := st.ops[t := Creating(st.dev.next)])
    case PutHandle(t) =>
      st.(table := H.Grabbed(st.table, Ptr(st.ops[t].o), st.kinds[st.ops[t].o]), ops := st.ops[t := Idle])
    case NoHandle(t) => st.(dev := RefView.Released(st.dev, st.s, st.ops[t].o), ops := st.ops[t := Idle])
    case GrowTable => st.(table := H.Expanded(st.table))
    case Look(t, h, ctx) => Looked(st, t, h, ctx)
    case Close(t, h, ctx) => Closed(st, t, h, ctx)
    case Drop(t) => st.(dev := RefView.Released(st.dev, st.s, st.ops[t].o), ops := st.ops[t := LessOne(st.ops[t])])
    case Other(r) => st.(dev := RefView.After(st.dev, r))
    case BeginDelete => st.(phase := Deleting(0))
    case DeleteNext => Deleted(st, st.phase.k)
    case BeginEmpty => st.(phase := Emptying)
    case PopOwn => st.(dev := RefView.After(st.dev, Pop(st.s)))
  }

  // ----- every step keeps the invariant -----

  /** A semaphore that anyone holds a reference to is linked and alive, and the session has a
      record for it; so the retain callback always succeeds, record or not. Only emptying the
      session's list can end that. */
  lemma HeldIsLinked(st: State, o: nat)
    requires Inv(st) && o in st.kinds
    requires HasHandle(st.table.live, o) || (HeldSum(st.ops, o) > 0 && (st.phase.Emptying? ==> o in st.dev.pObjs))
    ensures o in st.dev.pObjs && o in st.dev.objs && !st.dev.objs[o].fDead && o !in st.dev.calls
    ensures Count(st.dev.sessions[st.s], o) > 0 && Retains(st.dev, st.s, o)
  {
    assert RefsOk(st, o);
    LinkedIffReferenced(st.dev, o);
    FindMeansCount(st.dev, st.s, o);
  }

  /** What lookup finds is a semaphore of the kind asked for. */
  lemma FoundIsSemaphore(st: State, h: nat, ctx: nat)
    requires Inv(st) && H.Found(st.table, h, ctx) != 0
    ensures var o := ObjOf(H.Found(st.table, h, ctx));
      && o in st.kinds && st.kinds[o] == ctx && HasHandle(st.table.live, o)
      && H.Found(st.table, h, ctx) == Ptr(o) && o in st.dev.pObjs && o in st.dev.objs && Retains(st.dev, st.s, o)
      && Count(st.dev.sessions[st.s], o) > 0
  {
    var i := H.IndexOf(st.table.uBase, h);
    assert EntryOk(st, i);
    var o := ObjOf(st.table.live[i].obj);
    assert HasHandle(st.table.live, o);
    HeldIsLinked(st, o);
  }

  /** Only this session's counts change, by delta for o and not at all for others. */
  ghost predicate Shifted(d: Dev, d': Dev, s: nat, o: nat, delta: int) {
    && RefView.Inv(d') && |d'.sessions| == |d.sessions| && s < |d.sessions| && d'.next >= d.next
    && (forall p :: Count(d'.sessions[s], p) == Count(d.sessions[s], p) + (if p == o then delta else 0))
    && (forall p :: Total(d'.sessions, p) == Total(d.sessions, p) + (if p == o then delta else 0))
  }

  lemma ReferencedShifts(d: Dev, s: nat, o: nat)
    requires RefView.Inv(d) && s < |d.sessions| && o in d.pObjs && o in d.objs && Count(d.sessions[s], o) > 0
    ensures Shifted(d, Referenced(d, s, o, Spare(d)), s, o, 1)
  {
    var d' := Referenced(d, s, o, Spare(d));
    ReferencedKeeps(d, s, o, Spare(d));
    forall p: nat ensures Count(d'.sessions[s], p) == Count(d.sessions[s], p) + (if p == o then 1 else 0)
        && Total(d'.sessions, p) == Total(d.sessions, p) + (if p == o then 1 else 0) {
      ReferencedCounts(d, s, o, Spare(d), s, p);
      assert d'.sessions == d.sessions[s := d'.sessions[s]];
      TotalUpdate(d.sessions, s, d'.sessions[s], p);
    }
  }

  lemma ReleasedShifts(d: Dev, s: nat, o: nat)
    requires RefView.Inv(d) && s < |d.sessions| && o in d.objs && Count(d.sessions[s], o) > 0
    ensures Shifted(d, RefView.Released(d, s, o), s, o, -1)
  {
    var d' := RefView.Released(d, s, o);
    RefView.ReleasedKeeps(d, s, o);
    forall p: nat ensures Count(d'.sessions[s], p) == Count(d.sessions[s], p) - (if p == o then 1 else 0)
        && Total(d'.sessions, p) == Total(d.sessions, p) - (if p == o then 1 else 0) {
      ReleasedCounts(d, s, o, s, p);
      assert d'.sessions == d.sessions[s := d'.sessions[s]];
      TotalUpdate(d.sessions, s, d'.sessions[s], p);
    }
  }

  /** One thread's operation moves on and takes or gives back references to o accordingly. */
  lemma MovedKeeps(st: State, d': Dev, t: nat, op: Op, table': H.View, o: nat)
    requires Inv(st) && t < |st.ops| && (st.phase.Emptying? ==> Total(st.dev.sessions, o) > 0)
    requires var st' := st.(dev := d', ops := st.ops[t := op], table := table');
      TableOk(st') && OpsOk(st')
    requires Shifted(st.dev, d', st.s, o,
      HandleRefs(table'.live, o) - HandleRefs(st.table.live, o) + Held(op, o) - Held(st.ops[t], o))
    requires forall p :: p != o ==>
      HandleRefs(table'.live, p) == HandleRefs(st.table.live, p) && Held(op, p) == Held(st.ops[t], p)
    ensures Inv(st.(dev := d', ops := st.ops[t := op], table := table'))
  {
    var st' := st.(dev := d', ops := st.ops[t := op], table := table');
    forall p | p in st'.kinds ensures RefsOk(st', p) {
      assert RefsOk(st, p);
      HeldUpdate(st.ops, t, op, p);
    }
  }

  lemma LookKeeps(st: State, t: nat, h: nat, ctx: nat)
    requires Inv(st) && Enabled(st, Look(t, h, ctx))
    ensures Inv(Looked(st, t, h, ctx))
  {
    var w := H.Found(st.table, h, ctx);
    if w != 0 {
      FoundIsSemaphore(st, h, ctx);
      assert RefView.Inv(st.dev);
      hide Inv, RefView.Inv, Count, Referenced, Retains, HasHandle, Shifted, H.Found;
      ReferencedShifts(st.dev, st.s, ObjOf(w));
      LookFoundKeeps(st, t, ObjOf(w), ctx, Referenced(st.dev, st.s, ObjOf(w), Spare(st.dev)));
    }
  }

  lemma LookFoundKeeps(st: State, t: nat, o: nat, ctx: nat, d': Dev)
    requires Inv(st) && st.phase.Open? && t < |st.ops| && st.ops[t].Idle? && o in st.kinds && st.kinds[o] == ctx
    requires Shifted(st.dev, d', st.s, o, 1)
    ensures Inv(st.(dev := d', ops := st.ops[t := Using(o, ctx)]))
  {
    hide RefView.Inv, Shifted, H.WellFormed, HasHandle;
    var st' := st.(dev := d', ops := st.ops[t := Using(o, ctx)]);
    SameTable(st, st');
    forall u | 0 <= u < |st.ops| && u != t && st.ops[u].Creating? ensures !HasHandle(st'.table.live, st.ops[u].o) {
      assert OpOk(st, st.ops[u]);
    }
    OneOp(st, st', t);
    hide TableOk, OpsOk;
    MovedKeeps(st, d', t, Using(o, ctx), st.table, o);
  }

  lemma SameTable(st: State, st': State)
    requires TableOk(st) && st'.table == st.table && st'.phase == st.phase
    requires forall o :: o in st.kinds ==> o in st'.kinds && st'.kinds[o] == st.kinds[o]
    ensures TableOk(st')
  {
  }

  /** The other operations stay good when only the one of thread t changes, to no creation of its
      own, and no handle appears for an object being created. */
  lemma OneOp(st: State, st': State, t: nat)
    requires OpsOk(st) && t < |st.ops| && |st'.ops| == |st.ops| && st'.ops == st.ops[t := st'.ops[t]]
    requires OpOk(st', st'.ops[t])
    requires st'.ops[t].Creating? ==> st'.ops[t].o !in st.kinds
    requires forall o :: o in st.kinds ==> o in st'.kinds && st'.kinds[o] == st.kinds[o]
    requires forall u :: 0 <= u < |st.ops| && u != t && st.ops[u].Creating? ==> !HasHandle(st'.table.live, st.ops[u].o)
    ensures OpsOk(st')
  {
  }

  /** A handle entry goes: the others stay as they were, and its semaphore has none left. */
  lemma EntryGoes(st: State, live': map<nat, H.Item>, i: nat)
    requires TableOk(st) && i in st.table.live && live' == st.table.live - {i}
    ensures forall j :: j in live' ==> EntryOk(st, j) && j in st.table.live && live'[j] == st.table.live[j]
    ensures OneEntryEach(live')
    ensures var o := ObjOf(st.table.live[i].obj);
      && o in st.kinds && HasHandle(st.table.live, o) && !HasHandle(live', o)
      && forall p :: p != o ==> HandleRefs(live', p) == HandleRefs(st.table.live, p)
  {
  }

  /** The table after an entry is gone, with any change elsewhere. */
  lemma EntryGoneOk(st: State, st': State, i: nat)
    requires TableOk(st) && i in st.table.live && st'.kinds == st.kinds
    requires st'.table.live == st.table.live - {i} && st'.table.cCur == st.table.cCur
    requires st'.phase.Open? ==> H.WellFormed(st'.table)
    requires st'.phase.Deleting? ==> st.phase.Deleting? && i == st.phase.k && st'.phase.k == i + 1
    requires !st'.phase.Emptying?
    ensures TableOk(st')
  {
  }

  lemma CloseKeeps(st: State, t: nat, h: nat, ctx: nat)
    requires Inv(st) && Enabled(st, Close(t, h, ctx))
    ensures Inv(Closed(st, t, h, ctx))
  {
    var w := H.Found(st.table, h, ctx);
    if w != 0 {
      FoundIsSemaphore(st, h, ctx);
      FoundAt(st, h, ctx);
      var o, i := ObjOf(w), H.IndexOf(st.table.uBase, h);
      assert i in st.table.live && st.ops[t].Idle? && RefView.Inv(st.dev);
      hide Inv, RefView.Inv, Shifted, H.WellFormed, Referenced, H.IndexOf, H.Found, H.Released, Count, Retains,
        HasHandle;
      ReferencedShifts(st.dev, st.s, o);
      ReleasedShape(st.table, i);
      CloseFoundKeeps(st, t, i, o, Referenced(st.dev, st.s, o, Spare(st.dev)), H.Released(st.table, i));
    }
  }

  lemma FoundAt(st: State, h: nat, ctx: nat)
    requires Inv(st) && st.phase.Open? && H.Found(st.table, h, ctx) != 0
    ensures var i := H.IndexOf(st.table.uBase, h);
      i in st.table.live && st.table.live[i].obj == H.Found(st.table, h, ctx) && H.WellFormed(H.Released(st.table, i))
  {
  }

  lemma ReleasedShape(v: H.View, i: nat)
    ensures H.Released(v, i).live == v.live - {i} && H.Released(v, i).cCur == v.cCur
  {
  }

  lemma CloseFoundKeeps(st: State, t: nat, i: nat, o: nat, d': Dev, table': H.View)
    requires Inv(st) && t < |st.ops| && st.ops[t].Idle? && st.phase.Open?
    requires i in st.table.live && st.table.live[i].obj == Ptr(o)
    requires table'.live == st.table.live - {i} && table'.cCur == st.table.cCur && H.WellFormed(table')
    requires Shifted(st.dev, d', st.s, o, 1)
    ensures Inv(st.(dev := d', ops := st.ops[t := Closing(o, 2)], table := table'))
  {
    hide RefView.Inv, Shifted, H.WellFormed;
    var st' := st.(dev := d', ops := st.ops[t := Closing(o, 2)], table := table');
    EntryGoneOk(st, st', i);
    EntryGoes(st, table'.live, i);
    CloseOps(st, st', t, o);
    MovedKeeps(st, d', t, Closing(o, 2), table', o);
  }

  lemma CloseOps(st: State, st': State, t: nat, o: nat)
    requires OpsOk(st) && t < |st.ops| && st'.ops == st.ops[t := Closing(o, 2)] && o in st.kinds
    requires st'.kinds == st.kinds
    requires forall p :: HandleRefs(st'.table.live, p) <= HandleRefs(st.table.live, p)
    ensures OpsOk(st')
  {
    forall u | 0 <= u < |st.ops| && u != t && st.ops[u].Creating? ensures !HasHandle(st'.table.live, st.ops[u].o) {
      assert OpOk(st, st.ops[u]);
      assert HandleRefs(st'.table.live, st.ops[u].o) <= HandleRefs(st.table.live, st.ops[u].o);
    }
    OneOp(st, st', t);
  }

  /** An operation gives one reference back; or finds that its session's record is gone. */
  lemma DropKeeps(st: State, t: nat, op: Op)
    requires Inv(st) && t < |st.ops| && !st.ops[t].Idle? && st.ops[t].o in st.dev.objs
    requires op == if st.ops[t].Creating? then Idle else LessOne(st.ops[t])
    ensures Inv(st.(dev := RefView.Released(st.dev, st.s, st.ops[t].o), ops := st.ops[t := op]))
  {
    var o := st.ops[t].o;
    var st' := st.(dev := RefView.Released(st.dev, st.s, o), ops := st.ops[t := op]);
    DropOps(st, st', t);
    HeldUpdate(st.ops, t, op, o);
    assert OpOk(st, st.ops[t]) && RefsOk(st, o);
    if Total(st.dev.sessions, o) > 0 {
      LinkedIffReferenced(st.dev, o);
      HeldIsLinked(st, o);
      ReleasedShifts(st.dev, st.s, o);
      hide RefView.Inv, Shifted, RefView.Released;
      MovedKeeps(st, st'.dev, t, op, st.table, o);
    } else {
      FindMeansCount(st.dev, st.s, o);
      hide RefView.Inv;
      forall p | p in st'.kinds ensures RefsOk(st', p) {
        assert RefsOk(st, p);
        HeldUpdate(st.ops, t, op, p);
      }
    }
  }

  lemma DropOps(st: State, st': State, t: nat)
    requires TableOk(st) && OpsOk(st) && t < |st.ops| && !st.ops[t].Idle?
    requires st'.table == st.table && st'.phase == st.phase && st'.kinds == st.kinds
    requires st'.ops == st.ops[t := if st.ops[t].Creating? then Idle else LessOne(st.ops[t])]
    ensures TableOk(st') && OpsOk(st')
  {
    SameTable(st, st');
    assert OpOk(st, st.ops[t]);
    forall u | 0 <= u < |st.ops| && u != t && st.ops[u].Creating? ensures !HasHandle(st'.table.live, st.ops[u].o) {
      assert OpOk(st, st.ops[u]);
    }
    OneOp(st, st', t);
  }

  lemma PutHandleKeeps(st: State, t: nat)
    requires Inv(st) && Enabled(st, PutHandle(t))
    ensures Inv(After(st, PutHandle(t)))
  {
    var o := st.ops[t].o;
    assert OpOk(st, st.ops[t]);
    PtrIsObject(o);
    H.GrabbedKeeps(st.table, Ptr(o), st.kinds[o]);
    assert st.table.free[0] in st.table.free;
    hide H.WellFormed, H.IsFreeWord, RefView.Inv;
    HandlePutKeeps(st, t, H.Grabbed(st.table, Ptr(o), st.kinds[o]));
  }

  lemma HandlePutKeeps(st: State, t: nat, table': H.View)
    requires Inv(st) && t < |st.ops| && st.ops[t].Creating? && st.phase.Open? && st.ops[t].o in st.kinds
    requires H.WellFormed(table') && st.table.free != [] && st.table.free[0] !in st.table.live
    requires table'.live == st.table.live[st.table.free[0] := H.Item(Ptr(st.ops[t].o), st.kinds[st.ops[t].o])]
    ensures Inv(st.(table := table', ops := st.ops[t := Idle]))
  {
    hide RefView.Inv, H.WellFormed;
    var st' := st.(table := table', ops := st.ops[t := Idle]);
    var o, i := st.ops[t].o, st.table.free[0];
    PtrIsObject(o);
    assert OpOk(st, st.ops[t]);
    forall j | j in st'.table.live ensures EntryOk(st', j) {
      if j != i { assert EntryOk(st, j); }
    }
    NewHandle(st.table.live, i, o, st.kinds[o]);
    forall u | 0 <= u < |st.ops| && u != t && st.ops[u].Creating? ensures !HasHandle(st'.table.live, st.ops[u].o) {
      assert OpOk(st, st.ops[u]);
    }
    OneOp(st, st', t);
    assert Shifted(st.dev, st.dev, st.s, o, 0);
    hide OpsOk, TableOk, HasHandle;
    MovedKeeps(st, st.dev, t, Idle, st'.table, o);
  }

  lemma NewHandle(live: map<nat, H.Item>, i: nat, o: nat, ctx: nat)
    requires i !in live && OneEntryEach(live) && !HasHandle(live, o)
    ensures var live' := live[i := H.Item(Ptr(o), ctx)];
      && OneEntryEach(live') && HasHandle(live', o)
      && forall p :: p != o ==> (HasHandle(live', p) <==> HasHandle(live, p))
  {
    var live' := live[i := H.Item(Ptr(o), ctx)];
    assert i in live' && live'[i].obj == Ptr(o);
    forall p | p != o ensures HasHandle(live', p) <==> HasHandle(live, p) {
      if HasHandle(live, p) {
        var j :| j in live && live[j].obj == Ptr(p);
        assert j in live' && live'[j].obj == Ptr(p);
      }
    }
  }

  lemma GrowTableKeeps(st: State)
    requires Inv(st) && Enabled(st, GrowTable)
    ensures Inv(After(st, GrowTable))
  {
    ExpandedOk(st.table);
    hide H.WellFormed, RefView.Inv, H.Expanded;
    var st' := After(st, GrowTable);
    forall j | j in st'.table.live ensures EntryOk(st', j) { assert EntryOk(st, j); }
    forall t | 0 <= t < |st'.ops| ensures OpOk(st', st'.ops[t]) { assert OpOk(st, st.ops[t]); }
    forall o | o in st'.kinds ensures RefsOk(st', o) { assert RefsOk(st, o); }
  }

  lemma ExpandedOk(v: H.View)
    requires H.WellFormed(v) && v.cCur < v.cMax
    ensures H.WellFormed(H.Expanded(v)) && H.Expanded(v).live == v.live
  {
    H.PlanMakesRoom(v);
    H.WithLevel1Keeps(v, H.PlannedLevel1(v));
    H.WithTableKeeps(H.WithLevel1(v, H.PlannedLevel1(v)));
  }

  lemma {:induction false} HeldNone(ops: seq<Op>, o: nat)
    requires forall t :: 0 <= t < |ops| ==> Held(ops[t], o) == 0
    ensures HeldSum(ops, o) == 0
  {
    if ops != [] { HeldNone(ops[1..], o); }
  }

  /** A freshly registered object is unknown to the table and to all operations. */
  lemma NewIsUnknown(st: State)
    requires Inv(st)
    ensures st.dev.next !in st.kinds && HandleRefs(st.table.live, st.dev.next) == 0 && HeldSum(st.ops, st.dev.next) == 0
    ensures Total(st.dev.sessions, st.dev.next) == 0 == Count(st.dev.sessions[st.s], st.dev.next)
  {
    var n := st.dev.next;
    assert n in st.kinds ==> RefsOk(st, n);
    forall i | i in st.table.live ensures st.table.live[i].obj != Ptr(n) {
      assert EntryOk(st, i);
      assert RefsOk(st, ObjOf(st.table.live[i].obj));
    }
    forall t | 0 <= t < |st.ops| ensures Held(st.ops[t], n) == 0 { assert OpOk(st, st.ops[t]); }
    HeldNone(st.ops, n);
    assert RefView.Accounted(st.dev, n);
    Unnamed(st.dev, n);
    TotalUpdate(st.dev.sessions, st.s, st.dev.sessions[st.s], n);
  }

  lemma RegisterKeeps(st: State, t: nat, ctx: nat, fromFree: bool)
    requires Inv(st) && Enabled(st, Step.Register(t, ctx, fromFree))
    ensures Inv(After(st, Step.Register(t, ctx, fromFree)))
  {
    var st' := After(st, Step.Register(t, ctx, fromFree));
    var n := st.dev.next;
    NewIsUnknown(st);
    RegisteredKeeps(st.dev, st.s, fromFree);
    hide RefView.Inv, H.WellFormed;
    SameTable(st, st');
    forall u | 0 <= u < |st.ops| && u != t && st.ops[u].Creating? ensures !HasHandle(st'.table.live, st.ops[u].o) {
      assert OpOk(st, st.ops[u]);
    }
    OneOp(st, st', t);
    forall o | o in st'.kinds ensures RefsOk(st', o) {
      if o != n { assert RefsOk(st, o); }
      assert st'.dev.sessions[st.s][1..] == st.dev.sessions[st.s];
      TotalUpdate(st.dev.sessions, st.s, st'.dev.sessions[st.s], o);
      HeldUpdate(st.ops, t, Creating(n), o);
    }
  }

  /** Session u's references to anything but o may change, nothing else. */
  ghost predicate Leaves(d: Dev, d': Dev, s: nat, o: nat) {
    && |d'.sessions| == |d.sessions| && d'.next >= d.next && s < |d.sessions|
    && Total(d'.sessions, o) == Total(d.sessions, o)
    && Count(d'.sessions[s], o) == Count(d.sessions[s], o)
  }

  lemma AddRefLeaves(d: Dev, u: nat, p: nat, pre: Record, s: nat, o: nat)
    requires RefView.Inv(d) && u < |d.sessions| && s < |d.sessions| && Protected(d, p) && p != o
    ensures Leaves(d, Referenced(d, u, p, pre), s, o)
  {
    if !d.objs[p].fDead {
      ReferencedCounts(d, u, p, pre, u, o);
      ReferencedCounts(d, u, p, pre, s, o);
      hide RefView.Inv;
      var d' := Referenced(d, u, p, pre);
      assert d'.sessions == d.sessions[u := d'.sessions[u]];
      TotalUpdate(d.sessions, u, d'.sessions[u], o);
    }
  }

  lemma ReleaseLeaves(d: Dev, u: nat, p: nat, s: nat, o: nat)
    requires RefView.Inv(d) && u < |d.sessions| && s < |d.sessions| && p in d.objs && p != o
    ensures Leaves(d, RefView.Released(d, u, p), s, o)
  {
    ReleasedCounts(d, u, p, u, o);
    ReleasedCounts(d, u, p, s, o);
    hide RefView.Inv;
    var d' := RefView.Released(d, u, p);
    assert d'.sessions == d.sessions[u := d'.sessions[u]];
    TotalUpdate(d.sessions, u, d'.sessions[u], o);
  }

  lemma RegisterLeaves(d: Dev, u: nat, fromFree: bool, s: nat, o: nat)
    requires u < |d.sessions| && s < |d.sessions| && o < d.next
    ensures Leaves(d, Registered(d, u, fromFree), s, o)
  {
    var d' := Registered(d, u, fromFree);
    assert d'.sessions[u][1..] == d.sessions[u];
    TotalUpdate(d.sessions, u, d'.sessions[u], o);
  }

  lemma PopLeaves(d: Dev, u: nat, s: nat, o: nat)
    requires RefView.Inv(d) && u < |d.sessions| && d.sessions[u] != [] && s < |d.sessions| && u != s
    requires d.sessions[u][0].pObj != o
    ensures d.sessions[u][0].pObj in d.objs && Leaves(d, Dropped(d, u, 0, false), s, o)
  {
    Named(d, u);
    assert Counted(d, d.sessions[u][0].pObj);
    DroppedTotal(d, u, 0, false, o);
  }

  /** What others do does not change the references to a semaphore: they never touch it, and no
      other session has a record for it. */
  lemma ForeignKeepsCounts(st: State, r: RefView.Step, o: nat)
    requires Inv(st) && Foreign(st, r) && o in st.kinds
    ensures Leaves(st.dev, RefView.After(st.dev, r), st.s, o)
  {
    var d, s := st.dev, st.s;
    assert RefsOk(st, o);
    if RefView.Enabled(d, r) {
      if r.Pop? { OthersHaveNone(st, r.s, o); }
      hide RefView.Inv, Referenced, RefView.Released, Registered, Dropped, TableOk, OpsOk, RefsOk;
      match r
      case Register(u, fromFree) => RegisterLeaves(d, u, fromFree, s, o);
      case AddRef(u, p, pre) => AddRefLeaves(d, u, p, pre, s, o);
      case Release(u, p) => ReleaseLeaves(d, u, p, s, o);
      case Pop(u) => PopLeaves(d, u, s, o);
      case _ =>
    }
  }

  lemma OthersHaveNone(st: State, u: nat, o: nat)
    requires Inv(st) && o in st.kinds && u < |st.dev.sessions| && u != st.s
    ensures Count(st.dev.sessions[u], o) == 0
    ensures forall k :: 0 <= k < |st.dev.sessions[u]| ==> st.dev.sessions[u][k].pObj != o
  {
    var ss := st.dev.sessions;
    assert RefsOk(st, o);
    TotalUpdate(ss, u, [], o);
    TotalUpdate(ss[u := []], st.s, [], o);
    Named(st.dev, u);
    forall k | 0 <= k < |ss[u]| ensures ss[u][k].pObj != o {
      if ss[u][k].pObj == o { CountOne(ss[u], k); }
    }
  }

  lemma OtherKeeps(st: State, r: RefView.Step)
    requires Inv(st) && Foreign(st, r)
    ensures Inv(st.(dev := RefView.After(st.dev, r)))
  {
    hide RefView.Inv, RefView.After, H.WellFormed, Count, Total;
    var st' := st.(dev := RefView.After(st.dev, r));
    RefView.StepKeeps(st.dev, r);
    forall o | o in st'.kinds ensures RefsOk(st', o) {
      assert RefsOk(st, o);
      ForeignKeepsCounts(st, r, o);
    }
    SessionsStay(st.dev, r);
    SameTable(st, st');
    forall t | 0 <= t < |st'.ops| ensures OpOk(st', st'.ops[t]) { assert OpOk(st, st.ops[t]); }
  }

  lemma SessionsStay(d: Dev, r: RefView.Step)
    ensures |RefView.After(d, r).sessions| == |d.sessions|
  {
  }

  lemma DeleteNextKeeps(st: State)
    requires Inv(st) && Enabled(st, DeleteNext)
    ensures Inv(After(st, DeleteNext))
  {
    if st.phase.k in st.table.live {
      DeleteEntryKeeps(st);
    } else {
      PhaseKeeps(st, Deleting(st.phase.k + 1));
    }
  }

  lemma DeleteEntryKeeps(st: State)
    requires Inv(st) && Enabled(st, DeleteNext) && st.phase.k in st.table.live
    ensures Inv(Deleted(st, st.phase.k))
  {
    hide Inv, RefView.Inv, RefView.Released, Count, ObjOf, Shifted;
    var k := st.phase.k;
    EntryHolds(st, k);
    var o := ObjOf(st.table.live[k].obj);
    ReleasedShifts(st.dev, st.s, o);
    EntryDeletedKeeps(st, k, o, RefView.Released(st.dev, st.s, o));
  }

  /** A table entry's semaphore is linked, and counted in the session. */
  lemma EntryHolds(st: State, k: nat)
    requires Inv(st) && k in st.table.live
    ensures var o := ObjOf(st.table.live[k].obj);
      && st.table.live[k].obj == Ptr(o) && o in st.dev.objs
      && RefView.Inv(st.dev) && st.s < |st.dev.sessions| && Count(st.dev.sessions[st.s], o) > 0
  {
    assert EntryOk(st, k);
    var o := ObjOf(st.table.live[k].obj);
    assert HasHandle(st.table.live, o);
    HeldIsLinked(st, o);
  }

  lemma EntryDeletedKeeps(st: State, k: nat, o: nat, d': Dev)
    requires Inv(st) && st.phase == Deleting(k) && k in st.table.live && st.table.live[k].obj == Ptr(o)
    requires Shifted(st.dev, d', st.s, o, -1)
    ensures Inv(st.(dev := d', table := st.table.(live := st.table.live - {k}), phase := Deleting(k + 1)))
  {
    hide RefView.Inv, H.WellFormed;
    var st' := st.(dev := d', table := st.table.(live := st.table.live - {k}), phase := Deleting(k + 1));
    EntryGoneOk(st, st', k);
    EntryGoes(st, st'.table.live, k);
    forall t | 0 <= t < |st'.ops| ensures OpOk(st', st'.ops[t]) {
      assert OpOk(st, st.ops[t]);
      assert st.ops[t].Creating? ==> HandleRefs(st'.table.live, st.ops[t].o) <= HandleRefs(st.table.live, st.ops[t].o);
    }
    forall p | p in st'.kinds ensures RefsOk(st', p) { assert RefsOk(st, p); }
  }

  lemma PhaseKeeps(st: State, phase: Phase)
    requires Inv(st) && !st.phase.Emptying?
    requires match phase
      case Open => false
      case Deleting(k) => forall i :: i in st.table.live ==> k <= i < st.table.cCur
      case Emptying => st.table.live == map[]
    ensures Inv(st.(phase := phase))
  {
    var st' := st.(phase := phase);
    forall j | j in st'.table.live ensures EntryOk(st', j) { assert EntryOk(st, j); }
    forall t | 0 <= t < |st'.ops| ensures OpOk(st', st'.ops[t]) { assert OpOk(st, st.ops[t]); }
    forall p | p in st'.kinds ensures RefsOk(st', p) { assert RefsOk(st, p); }
  }

  /** The loop takes a record away, whoever still counts on it. */
  lemma PopOwnKeeps(st: State)
    requires Inv(st) && Enabled(st, PopOwn)
    ensures Inv(After(st, PopOwn))
  {
    var d, s := st.dev, st.s;
    Named(d, s);
    assert Counted(d, d.sessions[s][0].pObj);
    var d' := Dropped(d, s, 0, false);
    DroppedKeeps(d, s, 0, false);
    var st' := st.(dev := d');
    assert After(st, PopOwn) == st' && d'.next == d.next;
    hide RefView.Inv, Dropped, RefsOk, Counted, H.WellFormed, RefView.After, After;
    forall o | o in st.kinds ensures RefsOk(st', o) {
      assert RefsOk(st, o);
      PoppedCounts(st, o);
    }
    SameTable(st, st');
    forall t | 0 <= t < |st'.ops| ensures OpOk(st', st'.ops[t]) { assert OpOk(st, st.ops[t]); }
  }

  lemma PoppedCounts(st: State, o: nat)
    requires Inv(st) && st.phase.Emptying? && st.dev.sessions[st.s] != [] && o in st.kinds
    requires st.dev.sessions[st.s][0].pObj in st.dev.objs
    ensures RefsOk(st.(dev := Dropped(st.dev, st.s, 0, false)), o)
  {
    var d, s := st.dev, st.s;
    assert RefsOk(st, o);
    Named(d, s);
    CountOne(d.sessions[s], 0);
    DroppedTotal(d, s, 0, false, o);
    CountUpdate(d.sessions[s], 0, 1, o);
    hide RefView.Inv, Count, Total, TableOk, OpsOk;
  }

  lemma StepKeeps(st: State, e: Step)
    requires Inv(st)
    ensures Inv(After(st, e))
  {
    if Enabled(st, e) {
      match e
      case Register(t, ctx, fromFree) => RegisterKeeps(st, t, ctx, fromFree);
      case PutHandle(t) => PutHandleKeeps(st, t);
      case NoHandle(t) => DropKeeps(st, t, Idle);
      case GrowTable => GrowTableKeeps(st);
      case Look(t, h, ctx) => LookKeeps(st, t, h, ctx);
      case Close(t, h, ctx) => CloseKeeps(st, t, h, ctx);
      case Drop(t) => DropKeeps(st, t, LessOne(st.ops[t]));
      case Other(r) => OtherKeeps(st, r);
      case BeginDelete => PhaseKeeps(st, Deleting(0));
      case DeleteNext => DeleteNextKeeps(st);
      case BeginEmpty => PhaseKeeps(st, Emptying);
      case PopOwn => PopOwnKeeps(st);
    }
  }

  // ----- whole runs -----

  function Run(st: State, run: seq<Step>): State
    decreases |run|
  {
    if run == [] then st else Run(After(st, run[0]), run[1..])
  }

  /** A new session with an empty table, beside whatever else the device holds. */
  ghost predicate Init(st: State) {
    && RefView.Inv(st.dev) && st.s < |st.dev.sessions| && st.dev.sessions[st.s] == []
    && H.WellFormed(st.table) && st.table.live == map[] && st.kinds == map[]
    && st.phase.Open? && forall t :: 0 <= t < |st.ops| ==> st.ops[t].Idle?
  }

  lemma {:induction false} RunKeeps(st: State, run: seq<Step>)
    requires Inv(st)
    ensures Inv(Run(st, run))
    decreases |run|
  {
    if run != [] {
      StepKeeps(st, run[0]);
      RunKeeps(After(st, run[0]), run[1..]);
    }
  }

  lemma InitOk(st: State)
    requires Init(st)
    ensures Inv(st)
  {
  }

  lemma {:induction false} RunJoin(st: State, a: seq<Step>, b: seq<Step>)
    ensures Run(st, a + b) == Run(Run(st, a), b)
    decreases |a|
  {
    if a == [] {
      assert a + b == b;
    } else {
      assert (a + b)[1..] == a[1..] + b;
      RunJoin(After(st, a[0]), a[1..], b);
    }
  }

  // ----- what callers rely on -----

  /** The step is the owning session's cleanup taking the record for o away. */
  predicate PopsOwn(st: State, e: Step, o: nat) {
    e.PopOwn? && Enabled(st, e) && st.dev.sessions[st.s][0].pObj == o
  }

  /** Somewhere in the run the owning session's cleanup took the record for o away. */
  predicate Popped(st: State, run: seq<Step>, o: nat)
    decreases |run|
  {
    run != [] &&
    var before := run[..|run| - 1];
    Popped(st, before, o) || PopsOwn(Run(st, before), run[|run| - 1], o)
  }

  /** In every run: a semaphore counts one reference for its handle and one for each held by an
      operation, all in its session, until the session's cleanup takes its record away; and while
      a handle or an operation refers to it, exactly that makes it lose its place in the list and
      its real semaphore. */
  lemma SemaphoresOutliveTheirUsers(st: State, run: seq<Step>, o: nat)
    requires Init(st) && o in Run(st, run).kinds
    ensures var e := Run(st, run);
      && e.s < |e.dev.sessions| && NoRepeats(e.dev.calls)
      && Total(e.dev.sessions, o) == Count(e.dev.sessions[e.s], o)
      && (!Popped(st, run, o) ==>
        Total(e.dev.sessions, o) == HandleRefs(e.table.live, o) + HeldSum(e.ops, o))
      && (HasHandle(e.table.live, o) || HeldSum(e.ops, o) > 0 ==>
        if Popped(st, run, o) then o in e.dev.owed || o in e.dev.calls
        else o in e.dev.objs && !e.dev.objs[o].fDead && o !in e.dev.owed && o !in e.dev.calls)
  {
    InitOk(st);
    RunKeeps(st, run);
    LostByPopping(st, run, o);
    var e := Run(st, run);
    assert RefsOk(e, o);
    LinkedIffReferenced(e.dev, o);
  }

  /** An operation refers to a semaphore that is not linked any more. */
  ghost predicate Lost(st: State, o: nat) {
    o in st.kinds && o !in st.dev.pObjs && HeldSum(st.ops, o) > 0
  }

  lemma {:induction false} LostByPopping(st: State, run: seq<Step>, o: nat)
    requires Inv(st) && st.kinds == map[]
    ensures var e := Run(st, run);
      && (Lost(e, o) ==> Popped(st, run, o))
      && (Popped(st, run, o) ==> o < e.dev.next && (o in e.kinds ==> o !in e.dev.pObjs))
    decreases |run|
  {
    if run != [] {
      var before, last := run[..|run| - 1], run[|run| - 1];
      LostByPopping(st, before, o);
      RunKeeps(st, before);
      assert run == before + [last];
      RunJoin(st, before, [last]);
      assert Run(Run(st, before), [last]) == After(Run(st, before), last);
      LostInStep(Run(st, before), last, o);
    }
  }

  /** While the list is emptied, an operation's references to a semaphore go away together with
      those it is counted, unless its record is taken away. */
  lemma HeldWhileEmptying(st: State, e: Step, o: nat)
    requires Inv(st) && st.phase.Emptying? && o in st.kinds
    ensures var st' := After(st, e);
      && HeldSum(st'.ops, o) <= HeldSum(st.ops, o)
      && (Total(st.dev.sessions, o) > 0 && !PopsOwn(st, e, o) ==>
        Total(st'.dev.sessions, o) == Total(st.dev.sessions, o) + HeldSum(st'.ops, o) - HeldSum(st.ops, o))
  {
    var st' := After(st, e);
    assert RefsOk(st, o);
    if Enabled(st, e) {
      match e
      case Register(t, ctx, fromFree) =>
        HeldUpdate(st.ops, t, Creating(st.dev.next), o);
        RegisterLeaves(st.dev, st.s, fromFree, st.s, o);
      case NoHandle(t) => DropHolds(st, t, Idle, o);
      case Drop(t) => DropHolds(st, t, LessOne(st.ops[t]), o);
      case Other(r) => ForeignKeepsCounts(st, r, o);
      case PopOwn =>
        Named(st.dev, st.s);
        assert Counted(st.dev, st.dev.sessions[st.s][0].pObj);
        DroppedTotal(st.dev, st.s, 0, false, o);
      case _ =>
    }
  }

  lemma DropHolds(st: State, t: nat, op: Op, o: nat)
    requires Inv(st) && t < |st.ops| && !st.ops[t].Idle? && st.ops[t].o in st.dev.objs && o in st.kinds
    requires op == if st.ops[t].Creating? then Idle else LessOne(st.ops[t])
    ensures var d' := RefView.Released(st.dev, st.s, st.ops[t].o);
      && HeldSum(st.ops[t := op], o) <= HeldSum(st.ops, o)
      && (Total(st.dev.sessions, o) > 0 ==>
        Total(d'.sessions, o) == Total(st.dev.sessions, o) + HeldSum(st.ops[t := op], o) - HeldSum(st.ops, o))
  {
    var d, s, p := st.dev, st.s, st.ops[t].o;
    assert OpOk(st, st.ops[t]) && RefsOk(st, o) && RefsOk(st, p);
    HeldUpdate(st.ops, t, op, o);
    if Count(d.sessions[s], p) > 0 {
      ReleasedShifts(d, s, p);
    } else {
      FindMeansCount(d, s, p);
    }
  }

  /** One step: only the own Pop of its record takes a semaphore from under an operation, and what
      is unlinked stays so. */
  lemma LostInStep(st: State, e: Step, o: nat)
    requires Inv(st)
    ensures var st' := After(st, e);
      && (Lost(st', o) ==> Lost(st, o) || PopsOwn(st, e, o))
      && (o < st.dev.next ==> o < st'.dev.next && (o in st'.kinds ==> o in st.kinds))
      && (o < st.dev.next && o !in st.dev.pObjs ==> o !in st'.dev.pObjs)
      && (PopsOwn(st, e, o) ==> o < st.dev.next && (o in st.kinds ==> o !in st'.dev.pObjs))
  {
    var st' := After(st, e);
    StepKeeps(st, e);
    if o in st'.kinds { LinkedIffTotal(st', o); }
    if o in st.kinds {
      LinkedIffTotal(st, o);
      if st.phase.Emptying? { HeldWhileEmptying(st, e, o); }
    }
    NothingReturns(st, e, o);
    hide Inv, HasHandle, HeldSum, After;
  }

  /** Objects are not linked, nor become semaphores, a second time. */
  lemma NothingReturns(st: State, e: Step, o: nat)
    requires Inv(st)
    ensures var st' := After(st, e);
      && (o < st.dev.next ==> o < st'.dev.next && (o in st'.kinds ==> o in st.kinds))
      && (o < st.dev.next && o !in st.dev.pObjs ==> o !in st'.dev.pObjs)
      && (PopsOwn(st, e, o) ==> o < st.dev.next && (o in st.kinds ==> o !in st'.dev.pObjs))
      && (o in st'.kinds && o !in st.kinds ==> o in st'.dev.pObjs)
      && (!st.phase.Emptying? && st'.phase.Emptying? ==>
        st'.dev == st.dev && st'.ops == st.ops && st'.kinds == st.kinds)
  {
    if PopsOwn(st, e, o) { OwnPopUnlinks(st, o); }
    var r := StepOfDevice(st, e);
    UnlinkedStays(st.dev, r, o);
    hide RefView.After, Inv, RefView.Inv;
  }

  /** On the device, every step is one of RefView or none. */
  lemma StepOfDevice(st: State, e: Step) returns (r: RefView.Step)
    requires Inv(st)
    ensures After(st, e).dev == st.dev || After(st, e).dev == RefView.After(st.dev, r)
  {
    hide Inv, Registered, Referenced, RefView.Released, Dropped, Retains, H.Found, H.Released, H.Grabbed, H.Expanded;
    r := FreeMem(0);
    if Enabled(st, e) {
      match e
      case Register(t, ctx, fromFree) => r := RefView.Step.Register(st.s, fromFree);
      case NoHandle(t) => r := Release(st.s, st.ops[t].o);
      case Drop(t) => r := Release(st.s, st.ops[t].o);
      case Look(t, h, ctx) => r := Retained(st, h, ctx);
      case Close(t, h, ctx) => r := Retained(st, h, ctx);
      case Other(q) => r := q;
      case DeleteNext =>
        if st.phase.k in st.table.live { r := Release(st.s, ObjOf(st.table.live[st.phase.k].obj)); }
      case PopOwn => r := Pop(st.s);
      case _ =>
    }
  }

  lemma Retained(st: State, h: nat, ctx: nat) returns (r: RefView.Step)
    requires Inv(st)
    ensures H.Found(st.table, h, ctx) != 0 ==>
      var o := ObjOf(H.Found(st.table, h, ctx));
      o in st.dev.objs && RefView.After(st.dev, r) == Referenced(st.dev, st.s, o, Spare(st.dev))
  {
    r := AddRef(st.s, ObjOf(H.Found(st.table, h, ctx)), Spare(st.dev));
    if H.Found(st.table, h, ctx) != 0 { FoundIsSemaphore(st, h, ctx); }
  }

  /** A semaphore whose record is taken away loses its place in the list: it has no other record. */
  lemma OwnPopUnlinks(st: State, o: nat)
    requires Inv(st) && PopsOwn(st, PopOwn, o)
    ensures o in st.dev.pObjs && o < st.dev.next && (o in st.kinds ==> o !in After(st, PopOwn).dev.pObjs)
  {
    var d, s := st.dev, st.s;
    Named(d, s);
    assert Counted(d, o) && Accounted(d, o);
    if o in st.kinds {
      PopOwnKeeps(st);
      assert RefsOk(st, o);
      DroppedTotal(d, s, 0, false, o);
      CountOne(d.sessions[s], 0);
      LinkedIffReferenced(After(st, PopOwn).dev, o);
    }
  }

  lemma LinkedIffTotal(st: State, o: nat)
    requires Inv(st) && o in st.kinds
    ensures RefsOk(st, o) && (o in st.dev.pObjs <==> Total(st.dev.sessions, o) > 0)
  {
    LinkedIffReferenced(st.dev, o);
  }

  /** Lookup, in any reachable state, is exactly the search for a handle of the right kind: the
      retain callback never refuses, so "try again" never happens. Otherwise nothing changes. */
  lemma LookupSucceedsExactly(st: State, t: nat, h: nat, ctx: nat)
    requires Inv(st) && Enabled(st, Look(t, h, ctx))
    ensures H.WellFormed(st.table) && |After(st, Look(t, h, ctx)).ops| == |st.ops|
    ensures After(st, Look(t, h, ctx)).ops[t].Using? <==> h in H.Handles(st.table) && H.Handles(st.table)[h].ctx == ctx
    ensures var st', hs := After(st, Look(t, h, ctx)), H.Handles(st.table);
      if h in hs && hs[h].ctx == ctx then st'.table == st.table && st'.ops == st.ops[t := Using(ObjOf(hs[h].obj), ctx)]
      else st' == st
  {
    FoundTells(st, h, ctx);
    hide Inv, Retains, Referenced, H.Found, H.Handles, H.WellFormed;
  }

  /** The search in the table, with the retain callback that never refuses. */
  lemma FoundTells(st: State, h: nat, ctx: nat)
    requires Inv(st) && st.phase.Open? && h < H.TWO32
    ensures H.WellFormed(st.table)
    ensures var w, hs := H.Found(st.table, h, ctx), H.Handles(st.table);
      && (w != 0 <==> h in hs && hs[h].ctx == ctx)
      && (w != 0 ==> w == hs[h].obj && Retains(st.dev, st.s, ObjOf(w)))
  {
    if H.Found(st.table, h, ctx) != 0 {
      FoundIsSemaphore(st, h, ctx);
    }
    var i := H.IndexOf(st.table.uBase, h);
    if i in st.table.live {
      assert EntryOk(st, i);
    }
  }

  /** Close is exactly that search too: it never refuses for want of a record. It takes away the one
      handle and keeps two references to release; otherwise nothing changes. */
  lemma CloseSucceedsExactly(st: State, t: nat, h: nat, ctx: nat)
    requires Inv(st) && Enabled(st, Close(t, h, ctx))
    ensures H.WellFormed(st.table) && |After(st, Close(t, h, ctx)).ops| == |st.ops|
    ensures After(st, Close(t, h, ctx)).ops[t].Closing?
      <==> h in H.Handles(st.table) && H.Handles(st.table)[h].ctx == ctx
    ensures var st', hs := After(st, Close(t, h, ctx)), H.Handles(st.table);
      if h in hs && hs[h].ctx == ctx
      then H.WellFormed(st'.table) && H.Handles(st'.table) == hs - {h}
        && st'.ops == st.ops[t := Closing(ObjOf(hs[h].obj), 2)]
      else st' == st
  {
    FoundTells(st, h, ctx);
    if H.Found(st.table, h, ctx) != 0 {
      FoundAt(st, h, ctx);
      H.ReleasedHandles(st.table, h);
    }
    hide Inv, Retains, Referenced, H.Found, H.Handles, H.WellFormed, H.Released;
  }

  /** Signal, reset and wait with nobody else in between leave all references as they were. */
  lemma UseGivesBack(st: State, t: nat, h: nat, ctx: nat)
    requires Inv(st) && Enabled(st, Look(t, h, ctx)) && After(st, Look(t, h, ctx)).ops[t].Using?
    ensures var e := After(After(st, Look(t, h, ctx)), Drop(t));
      && Inv(e) && e.ops == st.ops && e.table == st.table
      && (forall p :: Total(e.dev.sessions, p) == Total(st.dev.sessions, p))
      && e.dev.owed == st.dev.owed && e.dev.calls == st.dev.calls
  {
    var o := ObjOf(H.Found(st.table, h, ctx));
    LookedUp(st, t, h, ctx);
    FoundIsSemaphore(st, h, ctx);
    StepKeeps(st, Look(t, h, ctx));
    InvOfDevice(st);
    hide *;
    UseReleases(st.dev, st.s, o);
    UsedUp(st, t, o, ctx);
    StepKeeps(After(st, Look(t, h, ctx)), Drop(t));
  }

  lemma InvOfDevice(st: State)
    requires Inv(st)
    ensures RefView.Inv(st.dev) && st.s < |st.dev.sessions|
  {
  }

  lemma LookedUp(st: State, t: nat, h: nat, ctx: nat)
    requires Enabled(st, Look(t, h, ctx)) && After(st, Look(t, h, ctx)).ops[t].Using?
    ensures var o := ObjOf(H.Found(st.table, h, ctx));
      && H.Found(st.table, h, ctx) != 0 && o in st.dev.objs && st.s < |st.dev.sessions|
      && t < |st.ops| && st.ops[t].Idle?
      && After(st, Look(t, h, ctx))
        == st.(dev := Referenced(st.dev, st.s, o, Spare(st.dev)), ops := st.ops[t := Using(o, ctx)])
  {
    hide Referenced, H.Found, Spare;
  }

  lemma UsedUp(st: State, t: nat, o: nat, ctx: nat)
    requires t < |st.ops| && st.ops[t].Idle? && o in st.dev.objs && st.s < |st.dev.sessions|
    requires var d1 := Referenced(st.dev, st.s, o, Spare(st.dev)); st.s < |d1.sessions| && o in d1.objs
    ensures var d1 := Referenced(st.dev, st.s, o, Spare(st.dev));
      After(st.(dev := d1, ops := st.ops[t := Using(o, ctx)]), Drop(t)) == st.(dev := RefView.Released(d1, st.s, o))
  {
    hide Referenced, RefView.Released, Spare;
  }

  lemma UseReleases(d: Dev, s: nat, o: nat)
    requires RefView.Inv(d) && s < |d.sessions| && o in d.pObjs && o in d.objs && Count(d.sessions[s], o) > 0
    ensures var d1 := Referenced(d, s, o, Spare(d));
      && s < |d1.sessions| && o in d1.objs
      && var d2 := RefView.Released(d1, s, o);
        && (forall p :: Total(d2.sessions, p) == Total(d.sessions, p))
        && d2.owed == d.owed && d2.calls == d.calls
  {
    var d1 := Referenced(d, s, o, Spare(d));
    ReferencedShifts(d, s, o);
    LinkedIsAlive(d, o);
    assert o in d1.pObjs && o in d1.objs && d1.owed == d.owed && d1.calls == d.calls && d1.objs[o].cUsage >= 2;
    ReleasedShifts(d1, s, o);
    LastOnly(d1, s, o);
  }

  /** A close that has the table to itself: the handle is gone, the thread is done, and the semaphore
      is destroyed, or about to be, exactly when no other operation uses it. */
  lemma CloseRuns(st: State, t: nat, h: nat, ctx: nat)
    requires Inv(st) && Enabled(st, Close(t, h, ctx)) && After(st, Close(t, h, ctx)).ops[t].Closing?
    ensures H.Found(st.table, h, ctx) != 0 && H.WellFormed(st.table)
    ensures var o := ObjOf(H.Found(st.table, h, ctx));
      var e := After(After(After(st, Close(t, h, ctx)), Drop(t)), Drop(t));
      && Inv(e) && e.ops == st.ops && H.WellFormed(e.table) && H.Handles(e.table) == H.Handles(st.table) - {h}
      && Total(e.dev.sessions, o) == HeldSum(st.ops, o)
      && (o in e.dev.owed || o in e.dev.calls <==> HeldSum(st.ops, o) == 0)
  {
    hide *;
    ClosedOps(st, t, h, ctx);
    CloseSucceedsExactly(st, t, h, ctx);
    FoundTells(st, h, ctx);
    StepKeeps(st, Close(t, h, ctx));
    NoHandleAfterClose(st, t, h, ctx);
    var o := ObjOf(H.Found(st.table, h, ctx));
    TwoDrops(After(st, Close(t, h, ctx)), t, o);
    var e := After(After(After(st, Close(t, h, ctx)), Drop(t)), Drop(t));
    assert e.ops == st.ops[t := Idle] == st.ops;
    LeftAfterClose(e, o);
  }

  lemma TwoDrops(st: State, t: nat, o: nat)
    requires Inv(st) && st.phase.Open? && t < |st.ops| && st.ops[t] == Closing(o, 2)
    ensures var e := After(After(st, Drop(t)), Drop(t));
      Inv(e) && e.phase == st.phase && e.table == st.table && e.kinds == st.kinds && e.ops == st.ops[t := Idle]
  {
    hide *;
    LessTwice(t, o);
    DropOnce(st, t, o);
    DropOnce(After(st, Drop(t)), t, o);
  }

  lemma LessTwice(t: nat, o: nat)
    ensures LessOne(Closing(o, 2)) == Closing(o, 1) && LessOne(Closing(o, 1)) == Idle
  {
  }

  lemma ClosedOps(st: State, t: nat, h: nat, ctx: nat)
    requires Enabled(st, Close(t, h, ctx)) && After(st, Close(t, h, ctx)).ops[t].Closing?
    ensures var st1 := After(st, Close(t, h, ctx));
      && st.phase.Open? && h < H.TWO32 && st1.phase.Open? && st1.kinds == st.kinds && st.ops[t].Idle? && t < |st.ops|
      && st1.ops == st.ops[t := Closing(ObjOf(H.Found(st.table, h, ctx)), 2)]
  {
    hide Retains, Referenced, H.Found, H.Released, H.IndexOf, Spare;
  }

  lemma NoHandleAfterClose(st: State, t: nat, h: nat, ctx: nat)
    requires Inv(st) && Enabled(st, Close(t, h, ctx)) && H.Found(st.table, h, ctx) != 0
    ensures var o := ObjOf(H.Found(st.table, h, ctx));
      o in st.kinds && !HasHandle(After(st, Close(t, h, ctx)).table.live, o)
  {
    var i := H.IndexOf(st.table.uBase, h);
    FoundTells(st, h, ctx);
    FoundAt(st, h, ctx);
    ClosedTable(st, t, h, ctx);
    EntryIsGone(st, i);
    hide *;
  }

  lemma ClosedTable(st: State, t: nat, h: nat, ctx: nat)
    requires Enabled(st, Close(t, h, ctx)) && H.Found(st.table, h, ctx) != 0
    requires Retains(st.dev, st.s, ObjOf(H.Found(st.table, h, ctx)))
    ensures After(st, Close(t, h, ctx)).table.live == st.table.live - {H.IndexOf(st.table.uBase, h)}
  {
    hide Retains, Referenced, H.Found, H.IndexOf, Spare;
  }

  lemma EntryIsGone(st: State, i: nat)
    requires Inv(st) && i in st.table.live
    ensures var o := ObjOf(st.table.live[i].obj);
      o in st.kinds && !HasHandle(st.table.live - {i}, o)
  {
    hide RefView.Inv, OpsOk, RefsOk;
    EntryGoes(st, st.table.live - {i}, i);
  }

  /** A release of a closing thread can be made, and changes table and phase not at all. */
  lemma DropOnce(st: State, t: nat, o: nat)
    requires Inv(st) && st.phase.Open? && t < |st.ops| && st.ops[t].Closing? && st.ops[t].o == o
    ensures Inv(After(st, Drop(t)))
    ensures var e := After(st, Drop(t));
      e.phase == st.phase && e.table == st.table && e.kinds == st.kinds && e.ops == st.ops[t := LessOne(st.ops[t])]
  {
    hide *;
    DropReady(st, t, o);
    StepKeeps(st, Drop(t));
    DropShape(st, t);
  }

  lemma DropReady(st: State, t: nat, o: nat)
    requires Inv(st) && st.phase.Open? && t < |st.ops| && st.ops[t].Closing? && st.ops[t].o == o
    ensures o in st.dev.objs && st.s < |st.dev.sessions|
  {
    assert OpOk(st, st.ops[t]);
    HeldUpdate(st.ops, t, Idle, o);
    HeldIsLinked(st, o);
  }

  lemma DropShape(st: State, t: nat)
    requires t < |st.ops| && st.ops[t].Closing? && st.ops[t].o in st.dev.objs && st.s < |st.dev.sessions|
    ensures var e := After(st, Drop(t));
      e.phase == st.phase && e.table == st.table && e.kinds == st.kinds && e.ops == st.ops[t := LessOne(st.ops[t])]
  {
    hide RefView.Released;
  }

  lemma LeftAfterClose(e: State, o: nat)
    requires Inv(e) && e.phase.Open? && o in e.kinds && !HasHandle(e.table.live, o)
    ensures Total(e.dev.sessions, o) == HeldSum(e.ops, o)
    ensures o in e.dev.owed || o in e.dev.calls <==> HeldSum(e.ops, o) == 0
  {
    assert RefsOk(e, o);
    LinkedIffReferenced(e.dev, o);
  }

  /** Create ends with a handle no one had, under which the new semaphore is found. */
  lemma CreateGivesHandle(st: State, t: nat)
    requires Inv(st) && Enabled(st, PutHandle(t))
    ensures H.WellFormed(st.table)
    ensures var e := After(st, PutHandle(t));
      var h, o := H.HandleOf(st.table.uBase, st.table.free[0]), st.ops[t].o;
      && e.ops == st.ops[t := Idle] && H.WellFormed(e.table)
      && h !in H.Handles(st.table) && H.Handles(e.table) == H.Handles(st.table)[h := H.Item(Ptr(o), st.kinds[o])]
      && ObjOf(Ptr(o)) == o && e.dev == st.dev
  {
    var o := st.ops[t].o;
    PtrIsObject(o);
    H.GrabbedHandles(st.table, Ptr(o), st.kinds[o]);
    hide H.Handles, H.WellFormed, RefView.Inv;
  }

  /** Without a handle it gives the new semaphore back, which is then destroyed, or about to be,
      unless other operations hold it. */
  lemma FailedCreateLeavesNothing(st: State, t: nat)
    requires Inv(st) && Enabled(st, NoHandle(t)) && st.phase.Open?
    ensures var e, o := After(st, NoHandle(t)), st.ops[t].o;
      && Inv(e) && e.ops == st.ops[t := Idle] && e.table == st.table
      && Total(e.dev.sessions, o) == HeldSum(st.ops, o) - 1
      && (o in e.dev.owed || o in e.dev.calls <==> HeldSum(st.ops, o) == 1)
  {
    var o := st.ops[t].o;
    assert OpOk(st, st.ops[t]);
    HeldUpdate(st.ops, t, Idle, o);
    StepKeeps(st, NoHandle(t));
    var e := After(st, NoHandle(t));
    assert e.phase.Open? && o in e.kinds && !HasHandle(e.table.live, o);
    hide Inv;
    LeftAfterClose(e, o);
  }

  /** When close is about to release, the object still counts both references it asserts. */
  lemma CloseHoldsTwo(st: State, t: nat)
    requires Inv(st) && t < |st.ops| && st.ops[t].Closing? && st.ops[t].refs == 2 && !st.phase.Emptying?
    ensures st.ops[t].o in st.dev.objs && st.dev.objs[st.ops[t].o].cUsage >= 2
  {
    var o := st.ops[t].o;
    assert OpOk(st, st.ops[t]);
    HeldUpdate(st.ops, t, Idle, o);
    HeldIsLinked(st, o);
    assert RefsOk(st, o);
    LinkedIffReferenced(st.dev, o);
  }

  /** A handle is closed by one caller only: after a successful close no lookup finds it. */
  lemma ClosedIsGone(st: State, t: nat, h: nat, ctx: nat, ctx': nat)
    requires Inv(st) && Enabled(st, Close(t, h, ctx)) && After(st, Close(t, h, ctx)).ops[t].Closing?
    ensures H.Found(After(st, Close(t, h, ctx)).table, h, ctx') == 0
  {
  }

  // ----- session cleanup -----

  function Repeat(e: Step, n: nat): seq<Step> {
    if n == 0 then [] else [e] + Repeat(e, n - 1)
  }

  lemma {:induction false} DeletesAll(st: State, n: nat)
    requires Inv(st) && st.phase.Deleting? && st.phase.k + n == st.table.cCur
    ensures var e := Run(st, Repeat(DeleteNext, n));
      e.ops == st.ops && e.kinds == st.kinds && e.s == st.s && e.phase == Deleting(e.table.cCur)
    decreases n
  {
    if n > 0 {
      StepKeeps(st, DeleteNext);
      var st' := After(st, DeleteNext);
      assert st'.phase == Deleting(st.phase.k + 1) && st'.table.cCur == st.table.cCur;
      DeletesAll(st', n - 1);
      assert Repeat(DeleteNext, n)[1..] == Repeat(DeleteNext, n - 1);
    }
  }

  lemma {:induction false} PopsAll(st: State, n: nat)
    requires Inv(st) && st.phase.Emptying? && |st.dev.sessions[st.s]| == n
    ensures var e := Run(st, Repeat(PopOwn, n));
      e.ops == st.ops && e.kinds == st.kinds && e.s == st.s && e.phase.Emptying?
      && e.s < |e.dev.sessions| && e.dev.sessions[e.s] == []
    decreases n
  {
    if n > 0 {
      StepKeeps(st, PopOwn);
      PopShortens(st);
      hide Inv, After;
      PopsAll(After(st, PopOwn), n - 1);
      assert Repeat(PopOwn, n)[1..] == Repeat(PopOwn, n - 1);
    }
  }

  lemma PopShortens(st: State)
    requires Inv(st) && Enabled(st, PopOwn)
    ensures var st' := After(st, PopOwn);
      && st'.ops == st.ops && st'.kinds == st.kinds && st'.s == st.s && st'.phase == st.phase
      && |st'.dev.sessions| == |st.dev.sessions| && st'.dev.sessions[st.s] == st.dev.sessions[st.s][1..]
  {
    Named(st.dev, st.s);
    assert Counted(st.dev, st.dev.sessions[st.s][0].pObj);
    hide RefView.Inv, TableOk, OpsOk, Counted, SessionOk;
  }

  /** The steps of a session's cleanup, and no others. */
  ghost predicate CleanupOnly(run: seq<Step>) {
    forall i :: 0 <= i < |run| ==> run[i] in {BeginDelete, DeleteNext, BeginEmpty, PopOwn}
  }

  lemma {:induction false} RepeatOnly(e: Step, n: nat)
    requires e in {BeginDelete, DeleteNext, BeginEmpty, PopOwn}
    ensures CleanupOnly(Repeat(e, n))
  {
    if n > 0 { RepeatOnly(e, n - 1); }
  }

  /** Wherever an operation is in flight, closing the session runs through, and the operation is
      left with a semaphore that is destroyed or about to be. */
  lemma ClosingUnderOperation(st: State, t: nat) returns (run: seq<Step>)
    requires Inv(st) && st.phase.Open? && t < |st.ops| && !st.ops[t].Idle?
    ensures var e := Run(st, run);
      && CleanupOnly(run) && Inv(e) && e.phase.Emptying? && e.ops == st.ops && HeldSum(e.ops, st.ops[t].o) > 0
      && (st.ops[t].o in e.dev.calls || st.ops[t].o in e.dev.owed)
  {
    hide After, Inv, Run, Held, HeldSum, OpOk;
    var deletes := Repeat(DeleteNext, st.table.cCur);
    var st1 := After(st, BeginDelete);
    StepKeeps(st, BeginDelete);
    DeleteBegins(st);
    DeletesAll(st1, st.table.cCur);
    RunKeeps(st1, deletes);
    var st2 := Run(st1, deletes);
    StepKeeps(st2, BeginEmpty);
    EmptyBegins(st2);
    var st3 := After(st2, BeginEmpty);
    var pops := Repeat(PopOwn, |st3.dev.sessions[st3.s]|);
    PopsAll(st3, |st3.dev.sessions[st3.s]|);
    RunKeeps(st3, pops);
    run := [BeginDelete] + deletes + [BeginEmpty] + pops;
    Joined(st, deletes, pops);
    RepeatOnly(DeleteNext, st.table.cCur);
    RepeatOnly(PopOwn, |st3.dev.sessions[st3.s]|);
    LeftWithoutRecord(st, Run(st3, pops), t);
  }

  lemma DeleteBegins(st: State)
    requires Inv(st) && st.phase.Open?
    ensures After(st, BeginDelete) == st.(phase := Deleting(0))
  {
  }

  lemma EmptyBegins(st: State)
    requires Inv(st) && st.phase == Deleting(st.table.cCur)
    ensures After(st, BeginEmpty) == st.(phase := Emptying) && st.s < |st.dev.sessions|
  {
  }

  lemma LeftWithoutRecord(st: State, e: State, t: nat)
    requires Inv(st) && Inv(e) && e.ops == st.ops && e.kinds == st.kinds && t < |st.ops| && !st.ops[t].Idle?
    requires e.s < |e.dev.sessions| && e.dev.sessions[e.s] == []
    ensures HeldSum(e.ops, st.ops[t].o) > 0
    ensures st.ops[t].o in e.dev.calls || st.ops[t].o in e.dev.owed
  {
    var o := st.ops[t].o;
    assert OpOk(st, st.ops[t]) && RefsOk(e, o);
    HeldUpdate(st.ops, t, Idle, o);
    LinkedIffReferenced(e.dev, o);
  }

  lemma Joined(st: State, deletes: seq<Step>, pops: seq<Step>)
    ensures Run(st, [BeginDelete] + deletes + [BeginEmpty] + pops)
         == Run(After(Run(After(st, BeginDelete), deletes), BeginEmpty), pops)
  {
    hide After;
    var tail := [BeginEmpty] + pops;
    assert [BeginDelete] + deletes + [BeginEmpty] + pops == [BeginDelete] + (deletes + tail);
    assert ([BeginDelete] + (deletes + tail))[1..] == deletes + tail;
    RunJoin(After(st, BeginDelete), deletes, tail);
    assert tail[1..] == pops;
  }

  /** A real input: on a fresh session a thread creates a semaphore, looks it up to wait for it,
      and the session is closed. The semaphore goes while the thread is inside the wait. */
  lemma DestroyedUnderWaitExample(st: State, ctx: nat) returns (run: seq<Step>)
    requires Init(st) && |st.ops| > 0 && st.table.cCur == 0 < st.table.cMax
    ensures var e := Run(st, run);
      && e.ops == st.ops[0 := Using(st.dev.next, ctx)] && e.phase.Emptying?
      && (st.dev.next in e.dev.calls || st.dev.next in e.dev.owed)
  {
    var o, h := st.dev.next, H.HandleOf(st.table.uBase, 0);
    var opening := [Step.Register(0, ctx, false), GrowTable, PutHandle(0), Look(0, h, ctx)];
    OpensWith(st, ctx);
    InitOk(st);
    RunKeeps(st, opening);
    var closing := ClosingUnderOperation(Run(st, opening), 0);
    RunJoin(st, opening, closing);
    run := opening + closing;
  }

  lemma OpensWith(st: State, ctx: nat)
    requires Init(st) && |st.ops| > 0 && st.table.cCur == 0 < st.table.cMax
    ensures var h := H.HandleOf(st.table.uBase, 0);
      var e := Run(st, [Step.Register(0, ctx, false), GrowTable, PutHandle(0), Look(0, h, ctx)]);
      e.phase.Open? && e.ops == st.ops[0 := Using(st.dev.next, ctx)]
  {
    hide After, Inv, Init, H.HandleOf;
    var st2 := FreshTable(st, ctx);
    FirstHandle(st2, ctx);
    FirstLookup(After(st2, PutHandle(0)), ctx, st.dev.next);
    FourSteps(st, Step.Register(0, ctx, false), GrowTable, PutHandle(0), Look(0, H.HandleOf(st.table.uBase, 0), ctx));
  }

  lemma FourSteps(st: State, e1: Step, e2: Step, e3: Step, e4: Step)
    ensures Run(st, [e1, e2, e3, e4]) == After(After(After(After(st, e1), e2), e3), e4)
  {
    hide After;
    assert [e1, e2, e3, e4][1..] == [e2, e3, e4] && [e2, e3, e4][1..] == [e3, e4];
    assert [e3, e4][1..] == [e4] && [e4][1..] == [];
    var st1 := After(st, e1);
    var st2 := After(st1, e2);
    var st3 := After(st2, e3);
    assert Run(st, [e1, e2, e3, e4]) == Run(st1, [e2, e3, e4]) == Run(st2, [e3, e4]);
    assert Run(st2, [e3, e4]) == Run(st3, [e4]) == Run(After(st3, e4), []);
  }

  lemma FreshTable(st: State, ctx: nat) returns (st2: State)
    requires Init(st) && |st.ops| > 0 && st.table.cCur == 0 < st.table.cMax
    ensures st2 == After(After(st, Step.Register(0, ctx, false)), GrowTable) && Inv(st2) && st2.phase.Open?
    ensures st2.ops == st.ops[0 := Creating(st.dev.next)] && st2.table.uBase == st.table.uBase
    ensures st.dev.next in st2.kinds && st2.kinds[st.dev.next] == ctx
    ensures st2.table.free != [] && st2.table.free[0] == 0
  {
    InitOk(st);
    var st1 := After(st, Step.Register(0, ctx, false));
    StepKeeps(st, Step.Register(0, ctx, false));
    StepKeeps(st1, GrowTable);
    st2 := After(st1, GrowTable);
    hide Inv, RefView.Inv;
    assert |st1.table.free| == 0;
    assert st2.table.free == [] + H.Span(0, H.LEVEL2_ENTRIES);
  }

  lemma FirstHandle(st: State, ctx: nat)
    requires Inv(st) && st.phase.Open? && |st.ops| > 0 && st.ops[0].Creating?
    requires st.ops[0].o in st.kinds && st.kinds[st.ops[0].o] == ctx && st.table.free != [] && st.table.free[0] == 0
    ensures var st' := After(st, PutHandle(0));
      && Inv(st') && st'.phase.Open? && st'.ops == st.ops[0 := Idle] && st'.table.uBase == st.table.uBase
      && 0 in st'.table.live && st'.table.live[0] == H.Item(Ptr(st.ops[0].o), ctx)
  {
    StepKeeps(st, PutHandle(0));
    hide Inv;
  }

  lemma FirstLookup(st: State, ctx: nat, o: nat)
    requires Inv(st) && st.phase.Open? && |st.ops| > 0 && st.ops[0].Idle?
    requires 0 in st.table.live && st.table.live[0] == H.Item(Ptr(o), ctx)
    ensures var st' := After(st, Look(0, H.HandleOf(st.table.uBase, 0), ctx));
      st'.phase.Open? && st'.ops == st.ops[0 := Using(o, ctx)]
  {
    var h := H.HandleOf(st.table.uBase, 0);
    H.HandleRoundTrip(st.table.uBase, 0);
    PtrIsObject(o);
    assert H.WellFormed(st.table);
    assert H.Found(st.table, h, ctx) == Ptr(o);
    FoundIsSemaphore(st, h, ctx);
    hide Inv, RefView.Inv, Count, Referenced, RefsOk, HasHandle, H.Found, H.WellFormed;
    assert Enabled(st, Look(0, h, ctx));
    assert Looked(st, 0, h, ctx).ops == st.ops[0 := Using(o, ctx)];
    assert After(st, Look(0, h, ctx)) == Looked(st, 0, h, ctx);
  }

  /** After the table is gone only operations in flight keep semaphores alive, and emptying the
      session's list destroys exactly those: under the operations. */
  lemma CleanupDestroysUnderOperations(st: State, o: nat)
    requires Inv(st) && st.phase.Deleting? && st.phase.k >= st.table.cCur && o in st.kinds
    ensures var e := Cleaned(st.dev, st.s);
      && (o in e.calls || o in e.owed)
      && (o !in st.dev.calls && o !in st.dev.owed <==> HeldSum(st.ops, o) > 0)
  {
    assert RefsOk(st, o);
    assert !HasHandle(st.table.live, o);
    LinkedIffReferenced(st.dev, o);
    CleanedKeeps(st.dev, st.s);
    if HeldSum(st.ops, o) > 0 {
      CleanedExactly(st.dev, st.s, o);
    } else {
      CleanedCalls(st.dev, st.s, o);
    }
  }

  lemma {:induction false} CleanedCalls(d: Dev, s: nat, o: nat)
    requires s < |d.sessions|
    ensures o in d.calls ==> o in Cleaned(d, s).calls
    decreases |d.sessions[s]|
  {
    if d.sessions[s] != [] {
      CleanedOnceCalls(d, s, o);
      CleanedCalls(CleanedOnce(d, s), s, o);
    }
  }

  lemma CleanedOnceCalls(d: Dev, s: nat, o: nat)
    requires s < |d.sessions| && d.sessions[s] != []
    ensures o in d.calls ==> o in CleanedOnce(d, s).calls
    ensures |CleanedOnce(d, s).sessions| == |d.sessions| && |CleanedOnce(d, s).sessions[s]| < |d.sessions[s]|
  {
  }

  /** So when nobody races the closing session, every semaphore it created has lost its last
      reference before, with no operation in flight, and the destructor was called once or is due. */
  lemma QuietCleanupIsSafe(st: State, o: nat)
    requires Inv(st) && st.phase.Deleting? && st.phase.k >= st.table.cCur && o in st.kinds
    requires forall t :: 0 <= t < |st.ops| ==> st.ops[t].Idle?
    ensures o in st.dev.calls || o in st.dev.owed
    ensures Total(st.dev.sessions, o) == 0 && NoRepeats(Cleaned(st.dev, st.s).calls)
  {
    HeldNone(st.ops, o);
    CleanupDestroysUnderOperations(st, o);
    CleanedKeeps(st.dev, st.s);
    assert RefsOk(st, o);
    assert !HasHandle(st.table.live, o);
  }
}
