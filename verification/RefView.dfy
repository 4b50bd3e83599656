/** The reference counts of vboxdrv/SUPDrv.c as a step machine: objects linked into the device
    extension, and usage records in each session. One step is one region under the device
    spinlock, a destructor call, or the freeing of an object. */
module RefView {
  import opened Sequences

  /** What AddRef, Release and the cleanup loop keep in an object. */
  datatype Obj = Obj(fDead: bool, cUsage: nat)

  /** A session's references to one object. */
  datatype Usage = Usage(pObj: nat, cUsage: nat)

  /** Objects in memory and the list of linked ones; the usage lists, head first; spare usage
      records; unlinked objects whose destructor is still to be called, and those whose destructor
      was called but whose memory is not freed; all destructor calls so far. */
  datatype Dev = Dev(objs: map<nat, Obj>, pObjs: seq<nat>, sessions: seq<seq<Usage>>, cUsageFree: nat,
                     owed: set<nat>, running: set<nat>, calls: seq<nat>, next: nat)

  // ----- counting -----

  function Count(us: seq<Usage>, o: nat): nat {
    if us == [] then 0 else (if us[0].pObj == o then us[0].cUsage else 0) + Count(us[1..], o)
  }

  /** All references to o, over all sessions. */
  function Total(ss: seq<seq<Usage>>, o: nat): nat {
    if ss == [] then 0 else Count(ss[0], o) + Total(ss[1..], o)
  }

  lemma {:induction false} CountSplit(us: seq<Usage>, k: nat, o: nat)
    requires k < |us|
    ensures Count(us, o) == Count(us[..k], o) + (if us[k].pObj == o then us[k].cUsage else 0) + Count(us[k + 1..], o)
  {
    if k > 0 {
      CountSplit(us[1..], k - 1, o);
      assert us[1..][..k - 1] == us[1..k] && us[1..][k..] == us[k + 1..] && us[..k][1..] == us[1..k];
    }
  }

  lemma {:induction false} CountJoin(a: seq<Usage>, b: seq<Usage>, o: nat)
    ensures Count(a + b, o) == Count(a, o) + Count(b, o)
  {
    if a == [] {
      assert a + b == b;
    } else {
      CountJoin(a[1..], b, o);
      assert (a + b)[1..] == a[1..] + b;
    }
  }

  lemma CountUpdate(us: seq<Usage>, k: nat, n: nat, o: nat)
    requires k < |us|
    ensures Count(us[k := Usage(us[k].pObj, n)], o) == Count(us, o) + (if us[k].pObj == o then n - us[k].cUsage else 0)
    ensures Count(us[..k] + us[k + 1..], o) == Count(us, o) - (if us[k].pObj == o then us[k].cUsage else 0)
  {
    var w := us[k := Usage(us[k].pObj, n)];
    CountSplit(us, k, o);
    CountSplit(w, k, o);
    CountJoin(us[..k], us[k + 1..], o);
    assert w[..k] == us[..k] && w[k + 1..] == us[k + 1..];
  }

  lemma {:induction false} CountNone(us: seq<Usage>, o: nat)
    requires forall k :: 0 <= k < |us| ==> us[k].pObj != o
    ensures Count(us, o) == 0
  {
    if us != [] { CountNone(us[1..], o); }
  }

  /** The record is a session's whole count when it is the only one for its object. */
  lemma CountOne(us: seq<Usage>, k: nat)
    requires Distinct(us) && k < |us|
    ensures Count(us, us[k].pObj) == us[k].cUsage
  {
    CountSplit(us, k, us[k].pObj);
    CountNone(us[..k], us[k].pObj);
    CountNone(us[k + 1..], us[k].pObj);
  }

  lemma {:induction false} TotalUpdate(ss: seq<seq<Usage>>, s: nat, us: seq<Usage>, o: nat)
    requires s < |ss|
    ensures Total(ss[s := us], o) == Total(ss, o) - Count(ss[s], o) + Count(us, o)
    ensures Count(ss[s], o) <= Total(ss, o)
  {
    if s == 0 {
      assert ss[0 := us][1..] == ss[1..];
    } else {
      TotalUpdate(ss[1..], s - 1, us, o);
      assert ss[s := us][1..] == ss[1..][s - 1 := us];
    }
  }

  lemma {:induction false} TotalNone(ss: seq<seq<Usage>>, o: nat)
    requires forall s, k :: 0 <= s < |ss| && 0 <= k < |ss[s]| ==> ss[s][k].pObj != o
    ensures Total(ss, o) == 0
  {
    if ss != [] {
      CountNone(ss[0], o);
      forall s, k | 0 <= s < |ss[1..]| && 0 <= k < |ss[1..][s]| ensures ss[1..][s][k].pObj != o {
        assert ss[1..][s] == ss[s + 1];
      }
      TotalNone(ss[1..], o);
    }
  }

  // ----- the invariant at every lock release -----

  ghost predicate Distinct(us: seq<Usage>) {
    forall i, j :: 0 <= i < j < |us| ==> us[i].pObj != us[j].pObj
  }

  /** At most one record an object, none empty, none for an unlinked object. */
  ghost predicate SessionOk(us: seq<Usage>, pObjs: seq<nat>) {
    && Distinct(us)
    && forall k :: 0 <= k < |us| ==> us[k].cUsage >= 1 && us[k].pObj in pObjs
  }

  ghost predicate SessionsOk(ss: seq<seq<Usage>>, pObjs: seq<nat>) {
    forall s :: 0 <= s < |ss| ==> SessionOk(ss[s], pObjs)
  }

  /** A linked object is alive and its count is the sum of the sessions' counts, never zero. */
  ghost predicate Counted(d: Dev, o: nat) {
    o in d.objs && !d.objs[o].fDead && d.objs[o].cUsage == Total(d.sessions, o) >= 1
  }

  /** Every object ever registered is linked, waits for its destructor, or had it called once. */
  ghost predicate Accounted(d: Dev, o: nat) {
    && (o in d.objs <==> o in d.pObjs || o in d.owed || o in d.running)
    && !(o in d.pObjs && o in d.owed)
    && (o in d.calls ==> o !in d.pObjs && o !in d.owed && o < d.next)
    && (o in d.running ==> o in d.calls)
    && (o in d.pObjs || o in d.owed ==> o < d.next)
    && (o < d.next ==> o in d.pObjs || o in d.owed || o in d.calls)
  }

  ghost predicate Inv(d: Dev) {
    && NoRepeats(d.pObjs) && NoRepeats(d.calls)
    && (forall o :: o in d.pObjs ==> Counted(d, o))
    && SessionsOk(d.sessions, d.pObjs)
    && (forall o: nat {:trigger Accounted(d, o)} :: Accounted(d, o))
  }

  // ----- the regions -----

  datatype Record = FromFree | Fresh | NoRecord

  datatype Step =
    | Register(s: nat, fromFree: bool)
    | AddRef(s: nat, o: nat, pre: Record)
    | Release(s: nat, o: nat)
    | Pop(s: nat)                   // an iteration of the cleanup loop of session s
    | Destruct(o: nat)              // the destructor of an unlinked object is called
    | FreeMem(o: nat)               // and has returned: the object's memory goes

  /** The caller's part in the destructor race: the object is linked, or marked as being destroyed. */
  predicate Protected(d: Dev, o: nat) {
    o in d.objs && (o in d.pObjs || d.objs[o].fDead)
  }

  predicate HaveRecord(d: Dev, pre: Record) {
    match pre
    case FromFree => d.cUsageFree > 0
    case Fresh => true
    case NoRecord => d.cUsageFree == 0
  }

  predicate Enabled(d: Dev, st: Step) {
    match st
    case Register(s, fromFree) => s < |d.sessions| && (fromFree ==> d.cUsageFree > 0)
    case AddRef(s, o, pre) => s < |d.sessions| && Protected(d, o) && HaveRecord(d, pre)
    case Release(s, o) => s < |d.sessions| && o in d.objs
    case Pop(s) => s < |d.sessions| && d.sessions[s] != []
    case Destruct(o) => o in d.owed
    case FreeMem(o) => o in d.running
  }

  /** The position of session s's record for o, or the length. */
  function Find(us: seq<Usage>, o: nat): (k: nat)
    ensures k <= |us|
    ensures k < |us| ==> us[k].pObj == o
    ensures forall j :: 0 <= j < k ==> us[j].pObj != o
  {
    if us == [] || us[0].pObj == o then 0 else 1 + Find(us[1..], o)
  }

  function Registered(d: Dev, s: nat, fromFree: bool): Dev
    requires s < |d.sessions|
  {
    d.(objs := d.objs[d.next := Obj(false, 1)],
       pObjs := [d.next] + d.pObjs,
       sessions := d.sessions[s := [Usage(d.next, 1)] + d.sessions[s]],
       cUsageFree := if fromFree && d.cUsageFree > 0 then d.cUsageFree - 1 else d.cUsageFree,
       next := d.next + 1)
  }

  /** The object with its count and session s's record for it, at k, both changed. */
  function Recounted(d: Dev, s: nat, k: nat, cObj: nat, cRecord: nat): Dev
    requires s < |d.sessions| && k < |d.sessions[s]| && d.sessions[s][k].pObj in d.objs
  {
    var o := d.sessions[s][k].pObj;
    d.(objs := d.objs[o := d.objs[o].(cUsage := cObj)],
       sessions := d.sessions[s := d.sessions[s][k := Usage(o, cRecord)]])
  }

  function Referenced(d: Dev, s: nat, o: nat, pre: Record): Dev
    requires s < |d.sessions| && o in d.objs
  {
    if d.objs[o].fDead then d else
    var k := Find(d.sessions[s], o);
    if k < |d.sessions[s]| then
      Recounted(d, s, k, d.objs[o].cUsage + 1, d.sessions[s][k].cUsage + 1)
      .(cUsageFree := if pre.Fresh? then d.cUsageFree + 1 else d.cUsageFree)
    else if pre.NoRecord? then d
    else
      d.(objs := d.objs[o := d.objs[o].(cUsage := d.objs[o].cUsage + 1)],
         sessions := d.sessions[s := [Usage(o, 1)] + d.sessions[s]],
         cUsageFree := if pre.FromFree? && d.cUsageFree > 0 then d.cUsageFree - 1 else d.cUsageFree)
  }

  /** Session s loses its record at k; the object loses that many references, or is unlinked when
      it has no others. */
  function Dropped(d: Dev, s: nat, k: nat, fMark: bool): Dev
    requires s < |d.sessions| && k < |d.sessions[s]| && d.sessions[s][k].pObj in d.objs
  {
    var u := d.sessions[s][k];
    var ss := d.sessions[s := d.sessions[s][..k] + d.sessions[s][k + 1..]];
    if d.objs[u.pObj].cUsage > u.cUsage then
      d.(sessions := ss, objs := d.objs[u.pObj := d.objs[u.pObj].(cUsage := d.objs[u.pObj].cUsage - u.cUsage)])
    else
      d.(sessions := ss, pObjs := Without(d.pObjs, u.pObj), owed := d.owed + {u.pObj},
         objs := if fMark then d.objs[u.pObj := d.objs[u.pObj].(fDead := true)] else d.objs)
  }

  function Released(d: Dev, s: nat, o: nat): Dev
    requires s < |d.sessions| && o in d.objs
  {
    var k := Find(d.sessions[s], o);
    if d.objs[o].fDead || k == |d.sessions[s]| then d
    else if d.sessions[s][k].cUsage > 1 then
      Recounted(d, s, k, if d.objs[o].cUsage > 0 then d.objs[o].cUsage - 1 else 0, d.sessions[s][k].cUsage - 1)
    else
      Dropped(d, s, k, true).(cUsageFree := d.cUsageFree + 1)
  }

  function After(d: Dev, st: Step): Dev {
    if !Enabled(d, st) then d else
    match st
    case Register(s, fromFree) => Registered(d, s, fromFree)
    case AddRef(s, o, pre) => Referenced(d, s, o, pre)
    case Release(s, o) => Released(d, s, o)
    case Pop(s) => if d.sessions[s][0].pObj in d.objs then Dropped(d, s, 0, false) else d
    case Destruct(o) => d.(owed := d.owed - {o}, running := d.running + {o}, calls := d.calls + [o])
    case FreeMem(o) => d.(running := d.running - {o}, objs := d.objs - {o})
  }

  // ----- every step keeps the invariant -----

  lemma RegisteredKeeps(d: Dev, s: nat, fromFree: bool)
    requires Inv(d) && s < |d.sessions|
    ensures Inv(Registered(d, s, fromFree))
  {
    var d' := Registered(d, s, fromFree);
    var n := d.next;
    assert Accounted(d, n);
    Unnamed(d, n);
    forall o | o in d'.pObjs ensures Counted(d', o) {
      TotalUpdate(d.sessions, s, d'.sessions[s], o);
      assert d'.sessions[s][1..] == d.sessions[s];
      assert o != n ==> Counted(d, o);
    }
    assert SessionsOk(d'.sessions, d'.pObjs) by { SessionsGrow(d, d', s, n); }
    forall o: nat ensures Accounted(d', o) { assert Accounted(d, o); }
  }

  /** No record names an object that is not linked. */
  lemma Unnamed(d: Dev, o: nat)
    requires SessionsOk(d.sessions, d.pObjs) && o !in d.pObjs
    ensures forall s, k :: 0 <= s < |d.sessions| && 0 <= k < |d.sessions[s]| ==> d.sessions[s][k].pObj != o
    ensures Total(d.sessions, o) == 0
  {
    forall s, k | 0 <= s < |d.sessions| && 0 <= k < |d.sessions[s]| ensures d.sessions[s][k].pObj != o {
      assert SessionOk(d.sessions[s], d.pObjs);
    }
    TotalNone(d.sessions, o);
  }

  lemma Named(d: Dev, s: nat)
    requires SessionsOk(d.sessions, d.pObjs) && s < |d.sessions|
    ensures SessionOk(d.sessions[s], d.pObjs)
  {
  }

  lemma SessionsGrow(d: Dev, d': Dev, s: nat, o: nat)
    requires SessionsOk(d.sessions, d.pObjs) && s < |d.sessions|
    requires o in d'.pObjs && forall p :: p in d.pObjs ==> p in d'.pObjs
    requires d'.sessions == d.sessions[s := [Usage(o, 1)] + d.sessions[s]]
    requires forall k :: 0 <= k < |d.sessions[s]| ==> d.sessions[s][k].pObj != o
    ensures SessionsOk(d'.sessions, d'.pObjs)
  {
  }

  lemma RecountedKeeps(d: Dev, s: nat, k: nat, cObj: nat, cRecord: nat)
    requires Inv(d) && s < |d.sessions| && k < |d.sessions[s]| && cRecord >= 1
    requires d.sessions[s][k].pObj in d.objs
    requires cObj == d.objs[d.sessions[s][k].pObj].cUsage + cRecord - d.sessions[s][k].cUsage
    ensures Inv(Recounted(d, s, k, cObj, cRecord))
  {
    var d' := Recounted(d, s, k, cObj, cRecord);
    Named(d, s);
    forall o | o in d'.pObjs ensures Counted(d', o) {
      assert Counted(d, o);
      CountUpdate(d.sessions[s], k, cRecord, o);
      TotalUpdate(d.sessions, s, d'.sessions[s], o);
      CountOne(d.sessions[s], k);
    }
    forall t | 0 <= t < |d'.sessions| ensures SessionOk(d'.sessions[t], d'.pObjs) {
      assert SessionOk(d.sessions[t], d.pObjs);
    }
    forall o: nat ensures Accounted(d', o) { assert Accounted(d, o); }
  }

  lemma NewRecordKeeps(d: Dev, d': Dev, s: nat, o: nat)
    requires Inv(d) && s < |d.sessions| && o in d.pObjs && o in d.objs
    requires forall k :: 0 <= k < |d.sessions[s]| ==> d.sessions[s][k].pObj != o
    requires d' == d.(objs := d.objs[o := d.objs[o].(cUsage := d.objs[o].cUsage + 1)],
                      sessions := d.sessions[s := [Usage(o, 1)] + d.sessions[s]], cUsageFree := d'.cUsageFree)
    ensures Inv(d')
  {
    forall p | p in d'.pObjs ensures Counted(d', p) {
      assert Counted(d, p);
      assert d'.sessions[s][1..] == d.sessions[s];
      TotalUpdate(d.sessions, s, d'.sessions[s], p);
    }
    SessionsGrow(d, d', s, o);
    forall p: nat ensures Accounted(d', p) { assert Accounted(d, p); }
  }

  lemma SpareKeeps(d: Dev, n: nat)
    requires Inv(d)
    ensures Inv(d.(cUsageFree := n))
  {
    var d' := d.(cUsageFree := n);
    forall o | o in d'.pObjs ensures Counted(d', o) { assert Counted(d, o); }
    forall o: nat ensures Accounted(d', o) { assert Accounted(d, o); }
  }

  lemma ReferencedKeeps(d: Dev, s: nat, o: nat, pre: Record)
    requires Inv(d) && s < |d.sessions| && Protected(d, o)
    ensures Inv(Referenced(d, s, o, pre))
  {
    var k := Find(d.sessions[s], o);
    if !d.objs[o].fDead {
      if k < |d.sessions[s]| {
        RecountedKeeps(d, s, k, d.objs[o].cUsage + 1, d.sessions[s][k].cUsage + 1);
        SpareKeeps(Recounted(d, s, k, d.objs[o].cUsage + 1, d.sessions[s][k].cUsage + 1),
                   if pre.Fresh? then d.cUsageFree + 1 else d.cUsageFree);
      } else if !pre.NoRecord? {
        NewRecordKeeps(d, Referenced(d, s, o, pre), s, o);
      }
    }
  }

  /** An object nobody counts a reference to is named by no record. */
  lemma TotalZero(ss: seq<seq<Usage>>, pObjs: seq<nat>, o: nat)
    requires SessionsOk(ss, pObjs) && Total(ss, o) == 0
    ensures forall s, k :: 0 <= s < |ss| && 0 <= k < |ss[s]| ==> ss[s][k].pObj != o
  {
    forall s, k | 0 <= s < |ss| && 0 <= k < |ss[s]| ensures ss[s][k].pObj != o {
      assert SessionOk(ss[s], pObjs);
      CountOne(ss[s], k);
      TotalUpdate(ss, s, ss[s], ss[s][k].pObj);
    }
  }

  /** What dropping a record does to the sums. */
  lemma DroppedTotal(d: Dev, s: nat, k: nat, fMark: bool, o: nat)
    requires Inv(d) && s < |d.sessions| && k < |d.sessions[s]| && d.sessions[s][k].pObj in d.objs
    ensures var u := d.sessions[s][k];
      && Total(Dropped(d, s, k, fMark).sessions, o) == Total(d.sessions, o) - (if o == u.pObj then u.cUsage else 0)
      && Total(d.sessions, u.pObj) == d.objs[u.pObj].cUsage >= u.cUsage >= 1
  {
    var u := d.sessions[s][k];
    Named(d, s);
    assert Counted(d, u.pObj);
    CountUpdate(d.sessions[s], k, 0, o);
    TotalUpdate(d.sessions, s, d.sessions[s][..k] + d.sessions[s][k + 1..], o);
    CountOne(d.sessions[s], k);
    TotalUpdate(d.sessions, s, d.sessions[s], u.pObj);
  }

  lemma DroppedSessions(d: Dev, s: nat, k: nat, fMark: bool)
    requires Inv(d) && s < |d.sessions| && k < |d.sessions[s]| && d.sessions[s][k].pObj in d.objs
    ensures SessionsOk(Dropped(d, s, k, fMark).sessions, d.pObjs)
    ensures SessionsOk(Dropped(d, s, k, fMark).sessions, Dropped(d, s, k, fMark).pObjs)
  {
    var d' := Dropped(d, s, k, fMark);
    var u := d.sessions[s][k];
    forall t | 0 <= t < |d'.sessions| ensures SessionOk(d'.sessions[t], d.pObjs) {
      assert SessionOk(d.sessions[t], d.pObjs);
    }
    DroppedTotal(d, s, k, fMark, u.pObj);
    if d.objs[u.pObj].cUsage <= u.cUsage {
      TotalZero(d'.sessions, d.pObjs, u.pObj);
      WithoutHas(d.pObjs, u.pObj);
      forall t | 0 <= t < |d'.sessions| ensures SessionOk(d'.sessions[t], d'.pObjs) {
        assert SessionOk(d'.sessions[t], d.pObjs);
      }
    }
  }

  lemma DroppedKeeps(d: Dev, s: nat, k: nat, fMark: bool)
    requires Inv(d) && s < |d.sessions| && k < |d.sessions[s]| && d.sessions[s][k].pObj in d.objs
    ensures Inv(Dropped(d, s, k, fMark))
  {
    var d' := Dropped(d, s, k, fMark);
    var u := d.sessions[s][k];
    DroppedSessions(d, s, k, fMark);
    WithoutHas(d.pObjs, u.pObj);
    Named(d, s);
    forall o | o in d'.pObjs ensures Counted(d', o) {
      assert Counted(d, o);
      DroppedTotal(d, s, k, fMark, o);
    }
    forall o: nat ensures Accounted(d', o) { assert Accounted(d, o); }
  }

  lemma ReleasedKeeps(d: Dev, s: nat, o: nat)
    requires Inv(d) && s < |d.sessions| && o in d.objs
    ensures Inv(Released(d, s, o))
  {
    var k := Find(d.sessions[s], o);
    if !d.objs[o].fDead && k < |d.sessions[s]| {
      DroppedTotal(d, s, k, true, o);
      if d.sessions[s][k].cUsage > 1 {
        RecountedKeeps(d, s, k, d.objs[o].cUsage - 1, d.sessions[s][k].cUsage - 1);
      } else {
        DroppedKeeps(d, s, k, true);
        SpareKeeps(Dropped(d, s, k, true), d.cUsageFree + 1);
      }
    }
  }

  lemma DestructKeeps(d: Dev, o: nat)
    requires Inv(d) && o in d.owed
    ensures Inv(After(d, Destruct(o)))
  {
    var d' := After(d, Destruct(o));
    assert Accounted(d, o);
    forall p | p in d'.pObjs ensures Counted(d', p) { assert Counted(d, p); }
    forall p: nat ensures Accounted(d', p) { assert Accounted(d, p); }
  }

  lemma FreeMemKeeps(d: Dev, o: nat)
    requires Inv(d) && o in d.running
    ensures Inv(After(d, FreeMem(o)))
  {
    var d' := After(d, FreeMem(o));
    assert Accounted(d, o);
    forall p | p in d'.pObjs ensures Counted(d', p) { assert Counted(d, p) && Accounted(d, p); }
    forall p: nat ensures Accounted(d', p) { assert Accounted(d, p); }
  }

  /** Every region, of any session, keeps the counts right. */
  lemma StepKeeps(d: Dev, st: Step)
    requires Inv(d)
    ensures Inv(After(d, st))
  {
    if Enabled(d, st) {
      hide Inv, Registered, Referenced, Released, Dropped;
      match st
      case Register(s, fromFree) => RegisteredKeeps(d, s, fromFree);
      case AddRef(s, o, pre) => ReferencedKeeps(d, s, o, pre);
      case Release(s, o) => ReleasedKeeps(d, s, o);
      case Pop(s) => if d.sessions[s][0].pObj in d.objs { DroppedKeeps(d, s, 0, false); }
      case Destruct(o) => DestructKeeps(d, o);
      case FreeMem(o) => FreeMemKeeps(d, o);
    }
  }

  // ----- whole runs -----

  function Run(d: Dev, run: seq<Step>): Dev
    decreases |run|
  {
    if run == [] then d else Run(After(d, run[0]), run[1..])
  }

  lemma {:induction false} RunKeeps(d: Dev, run: seq<Step>)
    requires Inv(d)
    ensures Inv(Run(d, run))
    decreases |run|
  {
    if run != [] {
      StepKeeps(d, run[0]);
      RunKeeps(After(d, run[0]), run[1..]);
    }
  }

  lemma {:induction false} RunJoin(d: Dev, a: seq<Step>, b: seq<Step>)
    ensures Run(d, a + b) == Run(Run(d, a), b)
    decreases |a|
  {
    if a == [] {
      assert a + b == b;
    } else {
      assert (a + b)[1..] == a[1..] + b;
      RunJoin(After(d, a[0]), a[1..], b);
    }
  }

  /** A device with sessions but no objects. */
  ghost predicate Init(d: Dev) {
    d == Dev(map[], [], seq(|d.sessions|, _ => []), d.cUsageFree, {}, {}, [], 0)
  }

  lemma InitOk(d: Dev)
    requires Init(d)
    ensures Inv(d)
  {
  }

  /** Whatever the sessions do, and wherever destructors call back in: a destructor is called at
      most once, only for an object with no reference left in any session; and an object that still
      has a reference is linked and counts exactly its references. */
  lemma DestructedOnceAfterLastReference(d: Dev, run: seq<Step>, o: nat)
    requires Init(d)
    ensures var e := Run(d, run);
      && NoRepeats(e.calls)
      && (o in e.calls || o in e.owed ==> Total(e.sessions, o) == 0)
      && (Total(e.sessions, o) > 0 ==> o in e.objs && e.objs[o].cUsage == Total(e.sessions, o))
      && (o < e.next && Total(e.sessions, o) == 0 ==> o in e.calls || o in e.owed)
  {
    InitOk(d);
    RunKeeps(d, run);
    LinkedIffReferenced(Run(d, run), o);
  }

  lemma LinkedIffReferenced(d: Dev, o: nat)
    requires Inv(d)
    ensures o in d.pObjs <==> Total(d.sessions, o) > 0
    ensures o in d.pObjs ==> Counted(d, o)
    ensures Accounted(d, o)
  {
    assert Accounted(d, o);
    if o in d.pObjs {
      assert Counted(d, o);
    } else {
      Unnamed(d, o);
    }
  }

  /** The step that takes the last reference is the step that makes the destructor due; no other
      step does. */
  lemma DueWithLastReference(d: Dev, st: Step, o: nat)
    requires Inv(d) && Enabled(d, st) && o < d.next
    ensures Inv(After(d, st))
    ensures o !in d.owed && o in After(d, st).owed
      <==> Total(d.sessions, o) > 0 && Total(After(d, st).sessions, o) == 0
  {
    StepKeeps(d, st);
    LinkedIffReferenced(d, o);
    LinkedIffReferenced(After(d, st), o);
    hide Inv;
    OnlyDestructCalls(d, st, o);
  }

  /** No object is linked a second time. */
  lemma UnlinkedStays(d: Dev, st: Step, o: nat)
    requires Inv(d)
    ensures o < d.next && o !in d.pObjs ==> o !in After(d, st).pObjs
    ensures d.next <= After(d, st).next
  {
    if Enabled(d, st) {
      match st
      case Pop(s) => WithoutHas(d.pObjs, d.sessions[s][0].pObj);
      case Release(s, p) => WithoutHas(d.pObjs, p);
      case _ =>
    }
  }

  lemma OnlyDestructCalls(d: Dev, st: Step, o: nat)
    requires Enabled(d, st)
    ensures o in After(d, st).calls ==> o in d.calls || st == Destruct(o)
    ensures After(d, st).next >= d.next
    ensures o in d.calls ==> o in After(d, st).calls
  {
  }

  // ----- what the calls mean in counts -----

  /** Session s has a record for o exactly when it counts a reference to it. */
  lemma FindMeansCount(d: Dev, s: nat, o: nat)
    requires Inv(d) && s < |d.sessions|
    ensures Find(d.sessions[s], o) < |d.sessions[s]| <==> Count(d.sessions[s], o) > 0
    ensures Find(d.sessions[s], o) < |d.sessions[s]| ==>
      d.sessions[s][Find(d.sessions[s], o)].cUsage == Count(d.sessions[s], o) && o in d.pObjs
  {
    Named(d, s);
    var k := Find(d.sessions[s], o);
    if k < |d.sessions[s]| {
      CountOne(d.sessions[s], k);
    } else {
      CountNone(d.sessions[s], o);
    }
  }

  /** Register makes one reference, of this session to an object nobody referred to before. */
  lemma RegisteredCounts(d: Dev, s: nat, fromFree: bool, t: nat, p: nat)
    requires Inv(d) && s < |d.sessions| && t < |d.sessions|
    ensures var d' := Registered(d, s, fromFree);
      && Count(d'.sessions[t], p) == Count(d.sessions[t], p) + (if t == s && p == d.next then 1 else 0)
      && Total(d.sessions, d.next) == 0 && Total(d'.sessions, d.next) == 1
      && d.next !in d.objs && d.next !in d.calls
  {
    assert Accounted(d, d.next);
    Unnamed(d, d.next);
    var d' := Registered(d, s, fromFree);
    assert d'.sessions[s][1..] == d.sessions[s];
    TotalUpdate(d.sessions, s, d'.sessions[s], d.next);
  }

  /** AddRef adds one reference of this session to this object, and nothing else; the only call
      that adds none on a live object is the one without a record to put it in. */
  lemma ReferencedCounts(d: Dev, s: nat, o: nat, pre: Record, t: nat, p: nat)
    requires Inv(d) && s < |d.sessions| && t < |d.sessions| && o in d.pObjs && o in d.objs
    ensures var gained := !(pre.NoRecord? && Count(d.sessions[s], o) == 0);
      Count(Referenced(d, s, o, pre).sessions[t], p)
        == Count(d.sessions[t], p) + (if gained && t == s && p == o then 1 else 0)
  {
    assert Counted(d, o);
    FindMeansCount(d, s, o);
    var k := Find(d.sessions[s], o);
    if k < |d.sessions[s]| {
      CountUpdate(d.sessions[s], k, d.sessions[s][k].cUsage + 1, p);
    } else {
      assert ([Usage(o, 1)] + d.sessions[s])[1..] == d.sessions[s];
    }
  }

  lemma ReleasedRecord(d: Dev, s: nat, o: nat)
    requires s < |d.sessions| && o in d.objs
    ensures var us, k := d.sessions[s], Find(d.sessions[s], o);
      Released(d, s, o).sessions ==
        if d.objs[o].fDead || k == |us| then d.sessions
        else d.sessions[s := if us[k].cUsage > 1 then us[k := Usage(o, us[k].cUsage - 1)] else us[..k] + us[k + 1..]]
  {
  }

  /** Release takes one reference of this session away if it has one, and nothing else. */
  lemma ReleasedCounts(d: Dev, s: nat, o: nat, t: nat, p: nat)
    requires Inv(d) && s < |d.sessions| && t < |d.sessions| && o in d.objs
    ensures Count(Released(d, s, o).sessions[t], p)
         == Count(d.sessions[t], p) - (if t == s && p == o && Count(d.sessions[s], o) > 0 then 1 else 0)
  {
    FindMeansCount(d, s, o);
    LinkedIsAlive(d, o);
    ReleasedRecord(d, s, o);
    var k := Find(d.sessions[s], o);
    hide Inv, Find, Released, Count;
    if k < |d.sessions[s]| {
      CountUpdate(d.sessions[s], k, if d.sessions[s][k].cUsage > 0 then d.sessions[s][k].cUsage - 1 else 0, p);
    }
  }

  /** The object is unlinked exactly when that was the last reference of all. */
  lemma ReleasedLast(d: Dev, s: nat, o: nat)
    requires Inv(d) && s < |d.sessions| && o in d.objs
    ensures o in Released(d, s, o).owed && o !in d.owed
      <==> Count(d.sessions[s], o) > 0 && Total(d.sessions, o) == 1
  {
    FindMeansCount(d, s, o);
    LinkedIsAlive(d, o);
    TotalUpdate(d.sessions, s, d.sessions[s], o);
    hide Inv, Find;
  }

  lemma LinkedIsAlive(d: Dev, o: nat)
    requires Inv(d)
    ensures o in d.pObjs ==> Counted(d, o) && o !in d.owed
  {
    assert Accounted(d, o);
  }

  /** A release undoes a successful AddRef: every count is as before and nothing is destroyed. */
  lemma ReleaseUndoesAddRef(d: Dev, s: nat, o: nat, pre: Record, t: nat, p: nat)
    requires Inv(d) && s < |d.sessions| && t < |d.sessions| && o in d.pObjs && o in d.objs
    requires !(pre.NoRecord? && Count(d.sessions[s], o) == 0)
    ensures var d' := Referenced(d, s, o, pre);
      && o in d'.objs
      && Count(Released(d', s, o).sessions[t], p) == Count(d.sessions[t], p)
      && Released(d', s, o).owed == d.owed
  {
    assert Counted(d, o) && Accounted(d, o);
    ReferencedKeeps(d, s, o, pre);
    ReferencedCounts(d, s, o, pre, t, p);
    ReferencedCounts(d, s, o, pre, s, o);
    var d' := Referenced(d, s, o, pre);
    assert d'.owed == d.owed && o in d'.pObjs && o in d'.objs && d'.objs[o].cUsage == d.objs[o].cUsage + 1;
    hide Inv, Referenced, Released, Count;
    ReleasedCounts(d', s, o, t, p);
    LastOnly(d', s, o);
  }

  /** Only the last reference of all makes a destructor due. */
  lemma LastOnly(d: Dev, s: nat, o: nat)
    requires Inv(d) && s < |d.sessions| && o in d.pObjs && o in d.objs && d.objs[o].cUsage >= 2
    ensures Released(d, s, o).owed == d.owed
  {
    FindMeansCount(d, s, o);
    hide Inv, Find;
  }

  // ----- the usage records -----

  function RecordCount(ss: seq<seq<Usage>>): nat {
    if ss == [] then 0 else |ss[0]| + RecordCount(ss[1..])
  }

  lemma {:induction false} RecordCountUpdate(ss: seq<seq<Usage>>, s: nat, us: seq<Usage>)
    requires s < |ss|
    ensures RecordCount(ss[s := us]) == RecordCount(ss) - |ss[s]| + |us|
  {
    if s == 0 {
      assert ss[0 := us][1..] == ss[1..];
    } else {
      RecordCountUpdate(ss[1..], s - 1, us);
      assert ss[s := us][1..] == ss[1..][s - 1 := us];
    }
  }

  /** Records are neither lost nor made up: those in use and the spare ones together go up by the
      one that was allocated, and down by the one that the cleanup frees. */
  lemma RecordsConserved(d: Dev, st: Step)
    requires Inv(d) && Enabled(d, st)
    ensures var e := After(d, st);
      RecordCount(e.sessions) + e.cUsageFree == RecordCount(d.sessions) + d.cUsageFree
        + (match st
           case Register(_, fromFree) => if fromFree then 0 else 1
           case AddRef(_, o, pre) => if pre.Fresh? && !d.objs[o].fDead then 1 else 0
           case Pop(_) => -1
           case _ => 0)
  {
    match st
    case Destruct(_) =>
    case FreeMem(_) =>
    case Register(s, fromFree) =>
      hide Inv;
      RecordCountUpdate(d.sessions, s, Registered(d, s, fromFree).sessions[s]);
    case Release(s, o) =>
      hide Inv, RecordCount, Count, Total;
      ReleasedRecord(d, s, o);
      RecordCountUpdate(d.sessions, s, Released(d, s, o).sessions[s]);
    case AddRef(s, o, pre) =>
      hide Inv, RecordCount, Count, Total;
      if !d.objs[o].fDead { RecordCountUpdate(d.sessions, s, Referenced(d, s, o, pre).sessions[s]); }
    case Pop(s) =>
      Named(d, s);
      LinkedIsAlive(d, d.sessions[s][0].pObj);
      hide Inv, RecordCount, Count, Total;
      RecordCountUpdate(d.sessions, s, Dropped(d, s, 0, false).sessions[s]);
  }

  // ----- the destructor race of AddRef -----

  /** An object in memory that is marked as being destroyed, or one whose memory is gone. */
  predicate MarkedOrGone(d: Dev, o: nat) {
    o < d.next && (o in d.objs ==> d.objs[o].fDead)
  }

  /** The release of the last reference of all marks the object, which stays in memory for now. */
  lemma LastReleaseMarks(d: Dev, s: nat, o: nat)
    requires Inv(d) && s < |d.sessions| && o in d.objs && Count(d.sessions[s], o) > 0 && Total(d.sessions, o) == 1
    ensures var e := Released(d, s, o);
      o in e.objs && e.objs[o].fDead && o !in e.pObjs && o in e.owed && MarkedOrGone(e, o)
  {
    ReleasedKeeps(d, s, o);
    ReleasedLast(d, s, o);
    FindMeansCount(d, s, o);
    LinkedIsAlive(d, o);
    assert Accounted(d, o) && Accounted(Released(d, s, o), o);
    TotalUpdate(d.sessions, s, d.sessions[s], o);
    hide Inv, Find;
  }

  /** No step takes the mark away, and no object comes back. */
  lemma MarkStays(d: Dev, st: Step, o: nat)
    requires Inv(d) && MarkedOrGone(d, o)
    ensures MarkedOrGone(After(d, st), o)
  {
    LinkedIsAlive(d, o);
    if Enabled(d, st) && st.Pop? {
      Named(d, st.s);
    }
    if Enabled(d, st) && st.Release? {
      FindMeansCount(d, st.s, st.o);
    }
  }

  lemma {:induction false} MarkedInRun(d: Dev, run: seq<Step>, o: nat)
    requires Inv(d) && MarkedOrGone(d, o)
    ensures MarkedOrGone(Run(d, run), o)
    decreases |run|
  {
    if run != [] {
      StepKeeps(d, run[0]);
      MarkStays(d, run[0], o);
      hide Inv, MarkedOrGone, After;
      MarkedInRun(After(d, run[0]), run[1..], o);
    }
  }

  /** So after the last release, whatever happens and as long as the object is in memory, every
      AddRef is safe and refused: no reference is counted to an object about to be destroyed. */
  lemma NoReferenceAfterLastRelease(d: Dev, s: nat, o: nat, run: seq<Step>, u: nat, pre: Record)
    requires Inv(d) && s < |d.sessions| && o in d.objs && Count(d.sessions[s], o) > 0 && Total(d.sessions, o) == 1
    requires o in Run(Released(d, s, o), run).objs && u < |Run(Released(d, s, o), run).sessions|
    ensures var e := Run(Released(d, s, o), run);
      Inv(e) && e.objs[o].fDead && Protected(e, o) && Referenced(e, u, o, pre) == e
  {
    ReleasedKeeps(d, s, o);
    LastReleaseMarks(d, s, o);
    hide Inv, Released;
    RunKeeps(Released(d, s, o), run);
    MarkedInRun(Released(d, s, o), run, o);
  }

  /** Adding a reference to an object that is still in memory keeps the counts right exactly when
      the object is linked, or marked dead, or the call gave up for want of a record. The cleanup
      path does not mark the objects it unlinks. */
  lemma AddRefSafeExactly(d: Dev, s: nat, o: nat, pre: Record)
    requires Inv(d) && s < |d.sessions| && o in d.objs
    ensures Inv(Referenced(d, s, o, pre)) <==> Protected(d, o) || pre.NoRecord?
  {
    if Protected(d, o) {
      ReferencedKeeps(d, s, o, pre);
    } else {
      Unnamed(d, o);
      var d' := Referenced(d, s, o, pre);
      if !pre.NoRecord? {
        assert d'.sessions[s][0].pObj == o && o !in d'.pObjs;
        assert !SessionOk(d'.sessions[s], d'.pObjs);
      }
    }
  }

  /** A real race: a session registers an object and is cleaned up; before the object's destructor
      is called, AddRef finds a pointer to it that is in memory, not linked and not marked. */
  lemma AddRefRaceExample(d: Dev)
    requires Init(d) && |d.sessions| == 1
    ensures var e := Run(d, [Register(0, false), Pop(0)]);
      && Inv(e) && |e.sessions| == 1 && 0 in e.objs && !Protected(e, 0) && 0 in e.owed
      && !Inv(Referenced(e, 0, 0, Fresh))
  {
    InitOk(d);
    var run := [Register(0, false), Pop(0)];
    var d1 := After(d, run[0]);
    assert d1.sessions[0] == [Usage(0, 1)];
    var e := After(d1, run[1]);
    assert run[1..] == [run[1]] && run[1..][1..] == [];
    assert Run(d, run) == Run(d1, run[1..]) == Run(e, []) == e;
    RunKeeps(d, run);
    assert Enabled(d1, Pop(0)) && e == Dropped(d1, 0, 0, false);
    AddRefSafeExactly(e, 0, 0, Fresh);
  }

  // ----- session cleanup -----

  /** One undisturbed iteration of the loop, with the destructor if one is due. */
  function CleanedOnce(d: Dev, s: nat): Dev
    requires s < |d.sessions| && d.sessions[s] != []
  {
    var o := d.sessions[s][0].pObj;
    if o !in d.objs then d.(sessions := d.sessions[s := d.sessions[s][1..]]) else
    var d1 := Dropped(d, s, 0, false);
    if o in d1.owed then After(After(d1, Destruct(o)), FreeMem(o)) else d1
  }

  /** Emptying a session's list. */
  function Cleaned(d: Dev, s: nat): Dev
    requires s < |d.sessions|
    decreases if s < |d.sessions| then |d.sessions[s]| else 0
  {
    if d.sessions[s] == [] then d else Cleaned(CleanedOnce(d, s), s)
  }

  lemma CleanedOnceKeeps(d: Dev, s: nat)
    requires Inv(d) && s < |d.sessions| && d.sessions[s] != []
    ensures var e := CleanedOnce(d, s);
      Inv(e) && e.owed == d.owed && e.next == d.next && e.sessions == d.sessions[s := d.sessions[s][1..]]
  {
    var o := d.sessions[s][0].pObj;
    Named(d, s);
    assert Counted(d, o) && Accounted(d, o);
    var d1 := Dropped(d, s, 0, false);
    DroppedKeeps(d, s, 0, false);
    assert d.sessions[s][..0] + d.sessions[s][1..] == d.sessions[s][1..];
    hide Inv, SessionsOk, Counted;
    StepKeeps(d1, Destruct(o));
    StepKeeps(After(d1, Destruct(o)), FreeMem(o));
  }

  lemma {:induction false} CleanedKeeps(d: Dev, s: nat)
    requires Inv(d) && s < |d.sessions|
    ensures var e := Cleaned(d, s);
      Inv(e) && e.owed == d.owed && e.next == d.next && e.sessions == d.sessions[s := []]
    decreases |d.sessions[s]|
  {
    if d.sessions[s] == [] {
      assert d.sessions == d.sessions[s := []];
    } else {
      CleanedOnceKeeps(d, s);
      hide Inv, CleanedOnce;
      CleanedKeeps(CleanedOnce(d, s), s);
    }
  }

  /** An undisturbed cleanup takes away exactly the session's own references, and destroys exactly
      the objects that had no others. */
  lemma CleanedExactly(d: Dev, s: nat, o: nat)
    requires Inv(d) && s < |d.sessions| && o in d.pObjs
    ensures var e := Cleaned(d, s);
      && Inv(e) && e.sessions == d.sessions[s := []]
      && (o in e.calls <==> Total(d.sessions, o) == Count(d.sessions[s], o))
      && (o !in e.calls ==> o in e.objs && e.objs[o].cUsage == Total(d.sessions, o) - Count(d.sessions[s], o))
  {
    CleanedKeeps(d, s);
    LinkedIffReferenced(d, o);
    LinkedIffReferenced(Cleaned(d, s), o);
    TotalUpdate(d.sessions, s, [], o);
  }
}
