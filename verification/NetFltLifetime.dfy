/** Lifetime of filter instances of vboxnetflt/VBoxNetFlt.c in the static configuration: references,
    destruction when the last one goes, and the two searches that probe a count under the mutex
    and undo what they raised from zero. Atomic operations and regions under the mutex are steps;
    a probing thread holds the mutex across several of them. */
module NetFltLifetime {
  import opened Sequences

  datatype InsState = Initializing | Unconnected | Connected | Disconnecting | Destroyed

  datatype Ins = Ins(name: nat, cRefs: nat, enmState: InsState)

  /** What a thread is doing with instance p. */
  datatype Thread =
    | Idle
    | Holding(p: nat, refs: nat)     // it owns references, at least one
    | Probing(p: nat)                // it has the mutex and found p on the chain
    | Undoing(p: nat)                // it raised the count from zero
    | Got(p: nat)                    // it raised a positive count, and still has the mutex
    | Marking(p: nat)                // it dropped the last reference: the destructor runs
    | Deleting(p: nat)               // outside the mutex, in the OS specific part
    | Freeing(p: nat)                // unlinked, memory not yet freed
    | Made(p: nat)                   // a new instance, not on the chain yet
    | Starting(p: nat)               // on the chain, in the OS specific initialization

  /** Instances in memory, the chain, the mutex owner, and how often each destructor was entered. */
  datatype State = State(mem: map<nat, Ins>, chain: seq<nat>, owner: Owner, threads: seq<Thread>,
                         destroyed: seq<nat>, next: nat)

  datatype Owner = Nobody | Thread(t: nat)

  datatype Step =
    | Retain(t: nat)
    | Release(t: nat)                // atomic decrement; the last one enters the destructor
    | Disconnect(t: nat)             // a connected instance goes back to unconnected
    | Find(t: nat, name: nat)        // takes the mutex, keeps it if the name is on the chain
    | Probe(t: nat)                  // atomic increment
    | Undo(t: nat)                   // atomic decrement, and the mutex is released
    | Accept(t: nat, fConnect: bool) // the mutex is released, the reference kept
    | Mark(t: nat)
    | Unlink(t: nat)
    | FreeMem(t: nat)
    | New(t: nat, name: nat)
    | Insert(t: nat)                 // unless the name is taken
    | InitOk(t: nat)
    | InitFailed(t: nat)             // unlinks the instance whatever its count

  // ----- the chain -----

  /** The first instance of that name on the chain. */
  function Named(mem: map<nat, Ins>, chain: seq<nat>, name: nat): (k: nat)
    ensures k <= |chain|
    ensures k < |chain| ==> chain[k] in mem && mem[chain[k]].name == name
    ensures forall j :: 0 <= j < k ==> !(chain[j] in mem && mem[chain[j]].name == name)
  {
    if chain == [] || (chain[0] in mem && mem[chain[0]].name == name) then 0 else 1 + Named(mem, chain[1..], name)
  }

  // ----- references -----

  /** References that keep the instance alive. */
  function Real(th: Thread, p: nat): nat {
    match th
    case Holding(q, refs) => if q == p then refs else 0
    case Got(q) => if q == p then 1 else 0
    case Made(q) => if q == p then 1 else 0
    case Starting(q) => if q == p then 1 else 0
    case _ => 0
  }

  /** And those a probe raised from zero and takes back. */
  function Ghostly(th: Thread, p: nat): nat {
    if th == Undoing(p) then 1 else 0
  }

  function RealSum(ths: seq<Thread>, p: nat): nat {
    if ths == [] then 0 else Real(ths[0], p) + RealSum(ths[1..], p)
  }

  function GhostlySum(ths: seq<Thread>, p: nat): nat {
    if ths == [] then 0 else Ghostly(ths[0], p) + GhostlySum(ths[1..], p)
  }

  predicate Destroys(th: Thread, p: nat) {
    th == Marking(p) || th == Deleting(p) || th == Freeing(p)
  }

  // ----- the steps -----

  predicate HoldsMutex(th: Thread) {
    th.Probing? || th.Undoing? || th.Got?
  }

  predicate Enabled(s: State, st: Step) {
    st.t < |s.threads| &&
    var th := s.threads[st.t];
    match st
    case Retain(_) => th.Holding? && th.p in s.mem
    case Release(_) => th.Holding? && th.p in s.mem
    case Disconnect(_) => th.Holding? && th.p in s.mem && s.mem[th.p].enmState.Connected?
    case Find(_, _) => th.Idle? && s.owner.Nobody?
    case Probe(_) => th.Probing? && th.p in s.mem
    case Undo(_) => th.Undoing? && th.p in s.mem
    case Accept(_, _) => th.Got? && th.p in s.mem
    case Mark(_) => th.Marking? && th.p in s.mem && s.owner.Nobody?
    case Unlink(_) => th.Deleting? && th.p in s.mem && s.owner.Nobody?
    case FreeMem(_) => th.Freeing?
    case New(_, _) => th.Idle?
    case Insert(_) => th.Made? && th.p in s.mem && s.owner.Nobody?
    case InitOk(_) => th.Starting? && th.p in s.mem && s.owner.Nobody?
    case InitFailed(_) => th.Starting? && th.p in s.mem && s.owner.Nobody?
  }

  function To(s: State, t: nat, th: Thread): State
    requires t < |s.threads|
  {
    s.(threads := s.threads[t := th])
  }

  function Counted(s: State, p: nat, c: nat): State
    requires p in s.mem
  {
    s.(mem := s.mem[p := s.mem[p].(cRefs := c)])
  }

  function InState(s: State, p: nat, st: InsState): State
    requires p in s.mem
  {
    s.(mem := s.mem[p := s.mem[p].(enmState := st)])
  }

  function Released(s: State, t: nat): State
    requires t < |s.threads| && s.threads[t].Holding? && s.threads[t].p in s.mem
  {
    var p, refs := s.threads[t].p, s.threads[t].refs;
    var c := if s.mem[p].cRefs > 0 then s.mem[p].cRefs - 1 else 0;
    var s1 := Counted(s, p, c);
    if c == 0 then To(s1, t, Marking(p)).(destroyed := s.destroyed + [p])
    else To(s1, t, if refs > 1 then Holding(p, refs - 1) else Idle)
  }

  function Found(s: State, t: nat, name: nat): State
    requires t < |s.threads|
  {
    var k := Named(s.mem, s.chain, name);
    if k < |s.chain| then To(s, t, Probing(s.chain[k])).(owner := Thread(t)) else s
  }

  function Probed(s: State, t: nat): State
    requires t < |s.threads| && s.threads[t].Probing? && s.threads[t].p in s.mem
  {
    var p := s.threads[t].p;
    To(Counted(s, p, s.mem[p].cRefs + 1), t, if s.mem[p].cRefs + 1 > 1 then Got(p) else Undoing(p))
  }

  function Undone(s: State, t: nat): State
    requires t < |s.threads| && s.threads[t].Undoing? && s.threads[t].p in s.mem
  {
    var p := s.threads[t].p;
    To(Counted(s, p, if s.mem[p].cRefs > 0 then s.mem[p].cRefs - 1 else 0), t, Idle).(owner := Nobody)
  }

  function Accepted(s: State, t: nat, fConnect: bool): State
    requires t < |s.threads| && s.threads[t].Got? && s.threads[t].p in s.mem
  {
    var p := s.threads[t].p;
    var s1 := if fConnect && s.mem[p].enmState.Unconnected? then InState(s, p, Connected) else s;
    To(s1, t, Holding(p, 1)).(owner := Nobody)
  }

  function Inserted(s: State, t: nat): State
    requires t < |s.threads| && s.threads[t].Made? && s.threads[t].p in s.mem
  {
    var p := s.threads[t].p;
    if Named(s.mem, s.chain, s.mem[p].name) < |s.chain| then To(s, t, Idle).(mem := s.mem - {p})
    else To(s, t, Starting(p)).(chain := [p] + s.chain)
  }

  function After(s: State, st: Step): State {
    if !Enabled(s, st) then s else
    var t := st.t;
    var th := s.threads[t];
    match st
    case Retain(_) => To(Counted(s, th.p, s.mem[th.p].cRefs + 1), t, Holding(th.p, th.refs + 1))
    case Release(_) => Released(s, t)
    case Disconnect(_) => InState(s, th.p, Unconnected)
    case Find(_, name) => Found(s, t, name)
    case Probe(_) => Probed(s, t)
    case Undo(_) => Undone(s, t)
    case Accept(_, fConnect) => Accepted(s, t, fConnect)
    case Mark(_) => To(InState(s, th.p, Disconnecting), t, Deleting(th.p))
    case Unlink(_) => To(InState(s, th.p, Destroyed), t, Freeing(th.p)).(chain := Without(s.chain, th.p))
    case FreeMem(_) => To(s, t, Idle).(mem := s.mem - {th.p})
    case New(_, name) => To(s, t, Made(s.next)).(mem := s.mem[s.next := Ins(name, 1, Initializing)], next := s.next + 1)
    case Insert(_) => Inserted(s, t)
    case InitOk(_) => To(InState(s, th.p, Unconnected), t, Holding(th.p, 1))
    case InitFailed(_) => To(s, t, Idle).(chain := Without(s.chain, th.p), mem := s.mem - {th.p})
  }

  // ----- the invariant -----

  ghost predicate BeingDestroyed(ths: seq<Thread>, p: nat) {
    exists t :: 0 <= t < |ths| && Destroys(ths[t], p)
  }

  /** The count is the references that keep p alive plus those being undone; when none keeps it
      alive, its destructor was entered and a thread is still at it, and only then is there
      anything to undo. */
  ghost predicate InsOk(s: State, p: nat) {
    && p in s.mem && p < s.next
    && s.mem[p].cRefs == RealSum(s.threads, p) + GhostlySum(s.threads, p)
    && (RealSum(s.threads, p) > 0 ==> GhostlySum(s.threads, p) == 0 && p !in s.destroyed)
    && (RealSum(s.threads, p) == 0 ==> p in s.destroyed && BeingDestroyed(s.threads, p))
  }

  /** Nobody touches freed memory; the mutex has one owner; who may still be found is on the chain. */
  ghost predicate ThreadOk(s: State, t: nat)
    requires t < |s.threads|
  {
    var th := s.threads[t];
    && (!th.Idle? ==> th.p in s.mem)
    && (th.Holding? ==> th.refs >= 1)
    && (HoldsMutex(th) <==> s.owner == Thread(t))
    && (HoldsMutex(th) || th.Holding? || th.Starting? || th.Marking? || th.Deleting? ==> th.p in s.chain)
    && (th.Made? || th.Freeing? ==> th.p !in s.chain)
    && (th.Made? && th.p in s.mem ==> s.mem[th.p].cRefs == 1)
    && (th.Marking? || th.Deleting? || th.Freeing? ==> th.p in s.destroyed)
  }

  ghost predicate Single(ths: seq<Thread>, t: nat, u: nat)
    requires t < |ths| && u < |ths|
  {
    !((ths[t].Marking? || ths[t].Deleting? || ths[t].Freeing?) && Destroys(ths[u], ths[t].p))
  }

  ghost predicate OneDestroyer(ths: seq<Thread>) {
    forall t, u :: 0 <= t < u < |ths| ==> Single(ths, t, u)
  }

  ghost predicate ChainOk(s: State) {
    && (forall k :: 0 <= k < |s.chain| ==> s.chain[k] in s.mem)
    && (forall j, k :: 0 <= j < k < |s.chain| ==> OtherName(s.mem, s.chain[j], s.chain[k]))
  }

  predicate OtherName(mem: map<nat, Ins>, p: nat, q: nat) {
    p in mem && q in mem && mem[p].name != mem[q].name
  }

  ghost predicate Inv(s: State) {
    && (forall p: nat {:trigger InsOk(s, p)} :: p in s.mem ==> InsOk(s, p))
    && (forall t :: 0 <= t < |s.threads| ==> ThreadOk(s, t))
    && OneDestroyer(s.threads) && ChainOk(s)
    && NoRepeats(s.destroyed) && (forall k :: 0 <= k < |s.destroyed| ==> s.destroyed[k] < s.next)
    && (s.owner.Thread? ==> s.owner.t < |s.threads|)
  }

  // ----- sums -----

  lemma {:induction false} SumUpdate(ths: seq<Thread>, t: nat, th: Thread, p: nat)
    requires t < |ths|
    ensures RealSum(ths[t := th], p) == RealSum(ths, p) - Real(ths[t], p) + Real(th, p)
    ensures GhostlySum(ths[t := th], p) == GhostlySum(ths, p) - Ghostly(ths[t], p) + Ghostly(th, p)
    ensures Real(ths[t], p) <= RealSum(ths, p) && Ghostly(ths[t], p) <= GhostlySum(ths, p)
  {
    if t == 0 {
      assert ths[0 := th][1..] == ths[1..];
    } else {
      SumUpdate(ths[1..], t - 1, th, p);
      assert ths[t := th][1..] == ths[1..][t - 1 := th];
    }
  }

  lemma {:induction false} SumNone(ths: seq<Thread>, p: nat)
    ensures RealSum(ths, p) == 0 || exists t :: 0 <= t < |ths| && Real(ths[t], p) > 0
    ensures GhostlySum(ths, p) == 0 || exists t :: 0 <= t < |ths| && Ghostly(ths[t], p) > 0
  {
    if ths != [] {
      SumNone(ths[1..], p);
      if RealSum(ths[1..], p) > 0 {
        var t :| 0 <= t < |ths[1..]| && Real(ths[1..][t], p) > 0;
        assert Real(ths[t + 1], p) > 0;
      }
      if GhostlySum(ths[1..], p) > 0 {
        var t :| 0 <= t < |ths[1..]| && Ghostly(ths[1..][t], p) > 0;
        assert Ghostly(ths[t + 1], p) > 0;
      }
    }
  }

  // ----- what every step keeps for the others -----

  /** The step of thread t leaves the chain alone, frees nothing, and at most takes or releases the
      mutex for itself. */
  ghost predicate Local(s: State, s': State, t: nat) {
    && t < |s.threads| && |s'.threads| == |s.threads| && s'.threads == s.threads[t := s'.threads[t]]
    && s.mem.Keys <= s'.mem.Keys && s'.chain == s.chain && s'.next >= s.next
    && (s'.destroyed == s.destroyed || (|s'.destroyed| == |s.destroyed| + 1 && s.destroyed <= s'.destroyed))
    && (s'.owner == s.owner || (s.owner.Nobody? && s'.owner == Thread(t)) || (s.owner == Thread(t) && s'.owner.Nobody?))
  }

  lemma OthersStay(s: State, s': State, t: nat)
    requires Inv(s) && Local(s, s', t) && ThreadOk(s', t)
    requires forall q :: q in s.mem && q !in s.chain ==> s'.mem[q] == s.mem[q]
    ensures forall u :: 0 <= u < |s'.threads| ==> ThreadOk(s', u)
  {
    forall u | 0 <= u < |s'.threads| ensures ThreadOk(s', u) {
      if u != t { assert ThreadOk(s, u); }
    }
  }

  /** Instances other than p stay as they are when thread t is busy with p only. */
  lemma InstancesStay(s: State, s': State, t: nat, p: nat)
    requires Inv(s) && t < |s.threads| == |s'.threads|
    requires s'.threads == s.threads[t := s'.threads[t]] && s'.next >= s.next
    requires s.threads[t].Idle? || s.threads[t].p == p
    requires s'.threads[t].Idle? || s'.threads[t].p == p
    requires forall q :: q in s'.mem && q != p ==> q in s.mem && s'.mem[q].cRefs == s.mem[q].cRefs
    requires forall q :: q != p ==> (q in s'.destroyed <==> q in s.destroyed)
    ensures forall q: nat :: q in s'.mem && q != p ==> InsOk(s', q)
  {
    forall q: nat | q in s'.mem && q != p ensures InsOk(s', q) {
      assert InsOk(s, q);
      SumUpdate(s.threads, t, s'.threads[t], q);
      if RealSum(s.threads, q) == 0 {
        var u :| 0 <= u < |s.threads| && Destroys(s.threads[u], q);
        assert Destroys(s'.threads[u], q);
      }
    }
  }

  lemma DestroyersStay(s: State, s': State, t: nat)
    requires OneDestroyer(s.threads) && t < |s.threads| == |s'.threads| && s'.threads == s.threads[t := s'.threads[t]]
    requires var th' := s'.threads[t];
      th'.Marking? || th'.Deleting? || th'.Freeing? ==>
        Destroys(s.threads[t], th'.p) || forall u :: 0 <= u < |s.threads| && u != t ==> !Destroys(s.threads[u], th'.p)
    ensures OneDestroyer(s'.threads)
  {
    forall u, v | 0 <= u < v < |s'.threads| ensures Single(s'.threads, u, v) {
      assert Single(s.threads, u, v);
    }
  }

  /** While a thread has the mutex, no other is undoing a probe. */
  lemma MutexAlone(s: State, t: nat, p: nat)
    requires Inv(s) && t < |s.threads| && HoldsMutex(s.threads[t])
    ensures GhostlySum(s.threads, p) == Ghostly(s.threads[t], p)
  {
    SumUpdate(s.threads, t, Idle, p);
    var ths := s.threads[t := Idle];
    SumNone(ths, p);
    forall u | 0 <= u < |ths| ensures Ghostly(ths[u], p) == 0 {
      assert ThreadOk(s, u) && ThreadOk(s, t);
    }
  }

  // ----- every step keeps the invariant -----

  /** Steps that move one thread within its instance and keep the chain. */
  lemma LocalKeeps(s: State, s': State, t: nat, p: nat)
    requires Inv(s) && Local(s, s', t) && p in s.mem && p in s.chain
    requires s.threads[t].Idle? || s.threads[t].p == p
    requires s'.threads[t].Idle? || s'.threads[t].p == p
    requires s'.mem.Keys == s.mem.Keys
    requires forall q :: q in s.mem ==> s'.mem[q].name == s.mem[q].name && (q != p ==> s'.mem[q] == s.mem[q])
    requires s'.destroyed == if s'.threads[t].Marking? && !s.threads[t].Marking? then s.destroyed + [p] else s.destroyed
    requires s'.threads[t].Deleting? ==> Destroys(s.threads[t], p)
    requires !s'.threads[t].Freeing?
    requires s'.threads[t].Marking? && !s.threads[t].Marking? ==> p !in s.destroyed
    requires ThreadOk(s', t) && InsOk(s', p)
    ensures Inv(s')
  {
    OthersStay(s, s', t);
    InstancesStay(s, s', t, p);
    assert InsOk(s, p);
    forall u | 0 <= u < |s.threads| && Destroys(s.threads[u], p) ensures p in s.destroyed { assert ThreadOk(s, u); }
    DestroyersStay(s, s', t);
  }

  /** A new reference next to one the thread has, or a state change: nothing that destroys. */
  lemma HolderKeeps(s: State, st: Step)
    requires Inv(s) && Enabled(s, st) && (st.Retain? || st.Disconnect? || st.InitOk?)
    ensures Inv(After(s, st))
  {
    hide Released, Found, Probed, Undone, Accepted, Inserted, OneDestroyer, ChainOk, NoRepeats;
    var t := st.t;
    var p := s.threads[t].p;
    var s' := After(s, st);
    assert ThreadOk(s, t) && InsOk(s, p);
    SumUpdate(s.threads, t, s'.threads[t], p);
    hide Inv, RealSum, GhostlySum;
    assert ThreadOk(s', t) && InsOk(s', p);
    hide ThreadOk, InsOk;
    LocalKeeps(s, s', t, p);
  }

  /** The mutex is given up with a reference kept. */
  lemma AcceptKeeps(s: State, t: nat, fConnect: bool)
    requires Inv(s) && Enabled(s, Accept(t, fConnect))
    ensures Inv(Accepted(s, t, fConnect))
  {
    hide OneDestroyer, ChainOk, NoRepeats;
    var p := s.threads[t].p;
    var s' := Accepted(s, t, fConnect);
    assert ThreadOk(s, t) && InsOk(s, p);
    SumUpdate(s.threads, t, s'.threads[t], p);
    MutexAlone(s, t, p);
    hide Inv, RealSum, GhostlySum;
    assert ThreadOk(s', t) && InsOk(s', p);
    hide ThreadOk, InsOk;
    LocalKeeps(s, s', t, p);
  }

  lemma ReleaseKeeps(s: State, t: nat)
    requires Inv(s) && Enabled(s, Release(t))
    ensures Inv(Released(s, t))
  {
    var p := s.threads[t].p;
    var s' := Released(s, t);
    assert ThreadOk(s, t) && InsOk(s, p);
    SumUpdate(s.threads, t, s'.threads[t], p);
    assert s'.threads[t].Marking? ==> Destroys(s'.threads[t], p);
    LocalKeeps(s, s', t, p);
  }

  lemma FindKeeps(s: State, t: nat, name: nat)
    requires Inv(s) && Enabled(s, Find(t, name))
    ensures Inv(Found(s, t, name))
  {
    var k := Named(s.mem, s.chain, name);
    if k < |s.chain| {
      var p := s.chain[k];
      var s' := Found(s, t, name);
      assert ThreadOk(s, t) && InsOk(s, p);
      SumUpdate(s.threads, t, s'.threads[t], p);
      StillDestroyed(s, s', t, p);
      LocalKeeps(s, s', t, p);
    }
  }

  /** A destructor at work elsewhere is still at work. */
  lemma StillDestroyed(s: State, s': State, t: nat, p: nat)
    requires t < |s.threads| == |s'.threads| && s'.threads == s.threads[t := s'.threads[t]]
    requires !Destroys(s.threads[t], p)
    ensures BeingDestroyed(s.threads, p) ==> BeingDestroyed(s'.threads, p)
  {
    if BeingDestroyed(s.threads, p) {
      var u :| 0 <= u < |s.threads| && Destroys(s.threads[u], p);
      assert Destroys(s'.threads[u], p);
    }
  }

  /** A probe finds the count positive exactly when a reference keeps the instance alive. */
  lemma ProbeKeeps(s: State, t: nat)
    requires Inv(s) && Enabled(s, Probe(t))
    ensures Inv(Probed(s, t))
    ensures Probed(s, t).threads[t].Got? <==> RealSum(s.threads, s.threads[t].p) > 0
  {
    var p := s.threads[t].p;
    var s' := Probed(s, t);
    assert ThreadOk(s, t) && InsOk(s, p);
    MutexAlone(s, t, p);
    SumUpdate(s.threads, t, s'.threads[t], p);
    StillDestroyed(s, s', t, p);
    LocalKeeps(s, s', t, p);
  }

  lemma UndoKeeps(s: State, t: nat)
    requires Inv(s) && Enabled(s, Undo(t))
    ensures Inv(Undone(s, t))
  {
    var p := s.threads[t].p;
    var s' := Undone(s, t);
    assert ThreadOk(s, t) && InsOk(s, p);
    SumUpdate(s.threads, t, Idle, p);
    StillDestroyed(s, s', t, p);
    LocalKeeps(s, s', t, p);
  }

  lemma MarkKeeps(s: State, t: nat)
    requires Inv(s) && Enabled(s, Mark(t))
    ensures Inv(After(s, Mark(t)))
  {
    var p := s.threads[t].p;
    var s' := After(s, Mark(t));
    assert ThreadOk(s, t) && InsOk(s, p);
    SumUpdate(s.threads, t, Deleting(p), p);
    assert Destroys(s'.threads[t], p);
    LocalKeeps(s, s', t, p);
  }

  // ----- steps that change the chain or memory -----

  /** The chain without p holds the others, under names as different as before. */
  lemma ChainWithout(s: State, p: nat, mem': map<nat, Ins>)
    requires ChainOk(s)
    requires forall q :: q in s.chain && q != p ==> q in mem' && mem'[q].name == s.mem[q].name
    ensures forall x :: x in Without(s.chain, p) <==> x in s.chain && x != p
    ensures ChainOk(s.(chain := Without(s.chain, p), mem := mem'))
  {
    assert NoRepeats(s.chain) by {
      forall i, j | 0 <= i < j < |s.chain| ensures s.chain[i] != s.chain[j] {
        assert OtherName(s.mem, s.chain[i], s.chain[j]);
      }
    }
    WithoutHas(s.chain, p);
    WithoutSub(s.chain, p, s.mem, mem');
  }

  lemma {:induction false} WithoutSub(c: seq<nat>, p: nat, mem: map<nat, Ins>, mem': map<nat, Ins>)
    requires forall j, k :: 0 <= j < k < |c| ==> OtherName(mem, c[j], c[k])
    requires NoRepeats(c) && forall k :: 0 <= k < |c| ==> c[k] in mem
    requires forall q :: q in c && q != p ==> q in mem' && mem'[q].name == mem[q].name
    ensures forall q :: q in Without(c, p) ==> q in c && q in mem'
    ensures forall j, k :: 0 <= j < k < |Without(c, p)| ==> OtherName(mem', Without(c, p)[j], Without(c, p)[k])
  {
    if c != [] {
      forall k | 0 < k < |c| ensures OtherName(mem, c[0], c[k]) && c[k] in c {}
      if c[0] == p {
        forall j, k | 0 <= j < k < |c[1..]| ensures OtherName(mem', c[1..][j], c[1..][k]) {
          assert OtherName(mem, c[j + 1], c[k + 1]) && OtherName(mem, c[0], c[j + 1]) && OtherName(mem, c[0], c[k + 1]);
        }
      } else {
        WithoutSub(c[1..], p, mem, mem');
        WithoutHas(c[1..], p);
        var w := Without(c[1..], p);
        forall k | 0 <= k < |w| ensures OtherName(mem', c[0], w[k]) {
          assert w[k] in w;
          assert w[k] in c[1..];
          var i :| 0 <= i < |c[1..]| && c[1..][i] == w[k];
          assert c[i + 1] == w[k];
        }
        var r := [c[0]] + w;
        forall j, k | 0 <= j < k < |r| ensures OtherName(mem', r[j], r[k]) {}
      }
    }
  }

  lemma UnlinkKeeps(s: State, t: nat)
    requires Inv(s) && Enabled(s, Unlink(t))
    ensures Inv(After(s, Unlink(t)))
  {
    hide Released, Found, Probed, Undone, Accepted, Inserted;
    var p := s.threads[t].p;
    var s' := After(s, Unlink(t));
    assert ThreadOk(s, t) && InsOk(s, p);
    ChainWithout(s, p, s'.mem);
    SumUpdate(s.threads, t, Freeing(p), p);
    assert Destroys(s'.threads[t], p);
    InstancesStay(s, s', t, p);
    DestroyersStay(s, s', t);
    UnlinkedThreads(s, t);
    assert InsOk(s', p);
    hide ThreadOk, InsOk, RealSum, GhostlySum, Destroys;
  }

  lemma UnlinkedThreads(s: State, t: nat)
    requires Inv(s) && Enabled(s, Unlink(t))
    ensures var s' := After(s, Unlink(t));
      forall u :: 0 <= u < |s'.threads| ==> ThreadOk(s', u)
  {
    var p := s.threads[t].p;
    var s' := After(s, Unlink(t));
    assert ThreadOk(s, t) && InsOk(s, p);
    ChainWithout(s, p, s'.mem);
    NobodyElse(s, t, p);
    hide RealSum, GhostlySum, InsOk, Single;
    forall u | 0 <= u < |s'.threads| ensures ThreadOk(s', u) {
      assert ThreadOk(s, u);
    }
  }

  /** A thread past the marking of p, with the mutex free, is the only one that knows p. */
  lemma NobodyElse(s: State, t: nat, p: nat)
    requires Inv(s) && t < |s.threads| && Destroys(s.threads[t], p) && (s.owner.Nobody? || s.threads[t].Freeing?)
    ensures forall u :: 0 <= u < |s.threads| && u != t ==> s.threads[u].Idle? || s.threads[u].p != p
  {
    assert ThreadOk(s, t) && InsOk(s, p);
    forall u | 0 <= u < |s.threads| && u != t ensures s.threads[u].Idle? || s.threads[u].p != p {
      assert ThreadOk(s, u);
      SumUpdate(s.threads, u, Idle, p);
      assert u < t ==> Single(s.threads, u, t);
      assert t < u ==> Single(s.threads, t, u);
    }
  }

  /** An instance nobody else knows, and not on the chain, can be freed. */
  lemma GoneKeeps(s: State, s': State, t: nat, p: nat)
    requires Inv(s) && t < |s.threads| && !s.threads[t].Idle? && s.threads[t].p == p
    requires s' == s.(threads := s.threads[t := Idle], mem := s.mem - {p}, chain := s'.chain)
    requires s'.chain == s.chain || s'.chain == Without(s.chain, p)
    requires p !in s'.chain && !HoldsMutex(s.threads[t])
    requires forall u :: 0 <= u < |s.threads| && u != t ==> s.threads[u].Idle? || s.threads[u].p != p
    ensures Inv(s')
  {
    if s'.chain != s.chain {
      ChainWithout(s, p, s'.mem);
    } else {
      forall j, k | 0 <= j < k < |s'.chain| ensures OtherName(s'.mem, s'.chain[j], s'.chain[k]) {
        assert OtherName(s.mem, s.chain[j], s.chain[k]);
      }
    }
    ChainHas(s, p);
    InstancesStay(s, s', t, p);
    DestroyersStay(s, s', t);
    forall u | 0 <= u < |s'.threads| ensures ThreadOk(s', u) {
      assert ThreadOk(s, u);
    }
  }

  lemma ChainHas(s: State, p: nat)
    requires ChainOk(s)
    ensures forall x :: x in Without(s.chain, p) <==> x in s.chain && x != p
  {
    ChainWithout(s, p, s.mem);
  }

  lemma FreeMemKeeps(s: State, t: nat)
    requires Inv(s) && Enabled(s, FreeMem(t))
    ensures Inv(After(s, FreeMem(t)))
  {
    assert ThreadOk(s, t);
    NobodyElse(s, t, s.threads[t].p);
    GoneKeeps(s, After(s, FreeMem(t)), t, s.threads[t].p);
  }

  lemma NewKeeps(s: State, t: nat, name: nat)
    requires Inv(s) && Enabled(s, New(t, name))
    ensures Inv(After(s, New(t, name)))
  {
    var s' := After(s, New(t, name));
    var p := s.next;
    assert p in s.mem ==> InsOk(s, p);
    assert ThreadOk(s, t);
    forall u | 0 <= u < |s.threads| ensures Real(s.threads[u], p) == 0 && Ghostly(s.threads[u], p) == 0 {
      assert ThreadOk(s, u);
    }
    SumNone(s.threads, p);
    SumUpdate(s.threads, t, Made(p), p);
    InstancesStay(s, s', t, p);
    DestroyersStay(s, s', t);
    assert p !in s.chain;
    forall j, k | 0 <= j < k < |s'.chain| ensures OtherName(s'.mem, s'.chain[j], s'.chain[k]) {
      assert OtherName(s.mem, s.chain[j], s.chain[k]);
    }
    OthersStay(s, s', t);
  }

  lemma InsertKeeps(s: State, t: nat)
    requires Inv(s) && Enabled(s, Insert(t))
    ensures Inv(Inserted(s, t))
  {
    var p := s.threads[t].p;
    var s' := Inserted(s, t);
    assert ThreadOk(s, t) && InsOk(s, p);
    if Named(s.mem, s.chain, s.mem[p].name) < |s.chain| {
      OnlyMaker(s, t, p);
      GoneKeeps(s, s', t, p);
    } else {
      LinkedInKeeps(s, t);
    }
  }

  /** The new instance goes to the head of the chain. */
  lemma LinkedInKeeps(s: State, t: nat)
    requires Inv(s) && Enabled(s, Insert(t))
    requires Named(s.mem, s.chain, s.mem[s.threads[t].p].name) == |s.chain|
    ensures Inv(Inserted(s, t))
  {
    var p := s.threads[t].p;
    var s' := Inserted(s, t);
    assert ThreadOk(s, t) && InsOk(s, p);
    SumUpdate(s.threads, t, Starting(p), p);
    InstancesStay(s, s', t, p);
    DestroyersStay(s, s', t);
    OnlyMaker(s, t, p);
    assert InsOk(s', p);
    hide InsOk, RealSum, GhostlySum;
    forall j, k | 0 <= j < k < |s'.chain| ensures OtherName(s'.mem, s'.chain[j], s'.chain[k]) {
      assert j > 0 ==> OtherName(s.mem, s.chain[j - 1], s.chain[k - 1]);
    }
    forall u | 0 <= u < |s'.threads| ensures ThreadOk(s', u) { assert ThreadOk(s, u); }
  }

  /** An instance goes on the chain exactly when none of its name is there, and is freed otherwise; a
      search stops, with the mutex, exactly at the instance of the name. */
  lemma NamesDecide(s: State, t: nat, name: nat)
    requires Inv(s) && t < |s.threads|
    ensures Enabled(s, Insert(t)) ==>
      var e, p := After(s, Insert(t)), s.threads[t].p;
      if exists q :: q in s.chain && s.mem[q].name == s.mem[p].name
      then e.threads[t].Idle? && p !in e.mem && e.chain == s.chain
      else e.threads[t] == Starting(p) && e.mem == s.mem && e.chain == [p] + s.chain
    ensures Enabled(s, Find(t, name)) ==>
      var e := After(s, Find(t, name));
      if exists q :: q in s.chain && s.mem[q].name == name
      then e.threads[t].Probing? && e.owner == Thread(t)
        && e.threads[t].p in s.chain && s.mem[e.threads[t].p].name == name
      else e == s
  {
    forall q | q in s.chain ensures q in s.mem { var k :| 0 <= k < |s.chain| && s.chain[k] == q; }
  }

  /** Nobody else knows an instance that has one reference, its maker's, while the mutex is free. */
  lemma OnlyMaker(s: State, t: nat, p: nat)
    requires Inv(s) && t < |s.threads| && s.owner.Nobody? && p in s.mem
    requires s.threads[t] == Made(p) || (s.threads[t] == Starting(p) && s.mem[p].cRefs == 1)
    ensures forall u :: 0 <= u < |s.threads| && u != t ==> s.threads[u].Idle? || s.threads[u].p != p
  {
    assert ThreadOk(s, t) && InsOk(s, p);
    SumUpdate(s.threads, t, Idle, p);
    forall u | 0 <= u < |s.threads| && u != t ensures s.threads[u].Idle? || s.threads[u].p != p {
      assert ThreadOk(s, u);
      SumUpdate(s.threads[t := Idle], u, Idle, p);
    }
  }

  /** The failed initialization takes the instance away whatever its count. That is safe exactly
      when nobody else has got hold of it meanwhile. */
  lemma InitFailureSafeExactly(s: State, t: nat)
    requires Inv(s) && Enabled(s, InitFailed(t))
    ensures Inv(After(s, InitFailed(t))) <==> s.mem[s.threads[t].p].cRefs == 1
    ensures NoneDangling(After(s, InitFailed(t))) <==> s.mem[s.threads[t].p].cRefs == 1
  {
    var p := s.threads[t].p;
    var s' := After(s, InitFailed(t));
    assert ThreadOk(s, t) && InsOk(s, p);
    if s.mem[p].cRefs == 1 {
      ChainHas(s, p);
      OnlyMaker(s, t, p);
      GoneKeeps(s, s', t, p);
    } else {
      SumUpdate(s.threads, t, Idle, p);
      var ths := s.threads[t := Idle];
      SumNone(ths, p);
      var u :| 0 <= u < |ths| && Real(ths[u], p) > 0;
      assert s'.threads[u].p == p && p !in s'.mem;
      assert !ThreadOk(s', u);
    }
    InvDanglesNot(s');
  }

  /** No thread has to do with an instance that was freed. */
  ghost predicate NoneDangling(s: State) {
    forall t :: 0 <= t < |s.threads| && !s.threads[t].Idle? ==> s.threads[t].p in s.mem
  }

  lemma InvDanglesNot(s: State)
    ensures Inv(s) ==> NoneDangling(s)
  {
    if Inv(s) {
      forall t | 0 <= t < |s.threads| && !s.threads[t].Idle? ensures s.threads[t].p in s.mem { assert ThreadOk(s, t); }
    }
  }

  /** Every step keeps the invariant, but for a failed initialization with another holder. */
  lemma StepKeeps(s: State, st: Step)
    requires Inv(s)
    requires st.InitFailed? && Enabled(s, st) ==> s.mem[s.threads[st.t].p].cRefs == 1
    ensures Inv(After(s, st))
  {
    if Enabled(s, st) {
      hide Inv, Released, Found, Probed, Undone, Accepted, Inserted, ThreadOk, InsOk;
      match st
      case Release(t) => ReleaseKeeps(s, t);
      case Find(t, name) => FindKeeps(s, t, name);
      case Probe(t) => ProbeKeeps(s, t);
      case Undo(t) => UndoKeeps(s, t);
      case Mark(t) => MarkKeeps(s, t);
      case Unlink(t) => UnlinkKeeps(s, t);
      case FreeMem(t) => FreeMemKeeps(s, t);
      case New(t, name) => NewKeeps(s, t, name);
      case Accept(t, fConnect) => AcceptKeeps(s, t, fConnect);
      case Insert(t) => InsertKeeps(s, t);
      case InitFailed(t) => InitFailureSafeExactly(s, t);
      case _ => HolderKeeps(s, st);
    }
  }

  // ----- whole runs -----

  function Run(s: State, run: seq<Step>): State
    decreases |run|
  {
    if run == [] then s else Run(After(s, run[0]), run[1..])
  }

  /** No initialization fails while somebody else holds the instance. */
  ghost predicate Sheltered(s: State, run: seq<Step>)
    decreases |run|
  {
    run == [] || (
      && (run[0].InitFailed? && Enabled(s, run[0]) ==> s.mem[s.threads[run[0].t].p].cRefs == 1)
      && Sheltered(After(s, run[0]), run[1..]))
  }

  ghost predicate Init(s: State) {
    && s.mem == map[] && s.chain == [] && s.owner.Nobody? && s.destroyed == []
    && forall t :: 0 <= t < |s.threads| ==> s.threads[t].Idle?
  }

  lemma {:induction false} RunKeeps(s: State, run: seq<Step>)
    requires Inv(s) && Sheltered(s, run)
    ensures Inv(Run(s, run))
    decreases |run|
  {
    if run != [] {
      hide Inv;
      StepKeeps(s, run[0]);
      RunKeeps(After(s, run[0]), run[1..]);
    }
  }

  lemma InitIsOk(s: State)
    requires Init(s)
    ensures Inv(s)
  {
    assert forall t :: 0 <= t < |s.threads| ==> ThreadOk(s, t);
  }

  /** In every such run no thread has to do with an instance that was freed, no destructor is
      entered twice, and no two instances on the chain have one name. */
  lemma InstancesLiveRight(s: State, run: seq<Step>)
    requires Init(s) && Sheltered(s, run)
    ensures var e := Run(s, run);
      && NoneDangling(e) && NoRepeats(e.destroyed)
      && (forall j, k :: 0 <= j < k < |e.chain| ==> OtherName(e.mem, e.chain[j], e.chain[k]))
  {
    InitIsOk(s);
    RunKeeps(s, run);
    InvDanglesNot(Run(s, run));
  }

  ghost predicate NeverDangles(s: State, run: seq<Step>)
    decreases |run|
  {
    NoneDangling(s) && (run == [] || NeverDangles(After(s, run[0]), run[1..]))
  }

  /** And no other run is safe: nobody is ever left with a freed instance exactly when no
      initialization fails while somebody else holds the instance. */
  lemma {:induction false} SafeRunsExactly(s: State, run: seq<Step>)
    requires Inv(s)
    ensures NeverDangles(s, run) <==> Sheltered(s, run)
    decreases |run|
  {
    InvDanglesNot(s);
    if run != [] {
      var st := run[0];
      if st.InitFailed? && Enabled(s, st) { InitFailureSafeExactly(s, st.t); }
      if st.InitFailed? && Enabled(s, st) && s.mem[s.threads[st.t].p].cRefs != 1 {
        assert !NeverDangles(After(s, st), run[1..]);
      } else {
        StepKeeps(s, st);
        hide Inv, NoneDangling, After;
        SafeRunsExactly(After(s, st), run[1..]);
      }
    }
  }

  /** An instance in memory is being destroyed, once and by one thread, exactly when no reference
      keeps it alive; a probe that finds the count zero changes neither. */
  lemma DestroyedWithLastReference(s: State, p: nat)
    requires Inv(s) && p in s.mem
    ensures p in s.destroyed <==> RealSum(s.threads, p) == 0
    ensures BeingDestroyed(s.threads, p) <==> RealSum(s.threads, p) == 0
  {
    assert InsOk(s, p);
    forall t | 0 <= t < |s.threads| && Destroys(s.threads[t], p) ensures p in s.destroyed { assert ThreadOk(s, t); }
  }

  lemma ProbeOfZeroIsUndone(s: State, t: nat)
    requires Inv(s) && Enabled(s, Probe(t)) && s.mem[s.threads[t].p].cRefs == 0
    ensures var p := s.threads[t].p;
      var u := After(After(s, Probe(t)), Undo(t));
      && Enabled(After(s, Probe(t)), Undo(t)) && Inv(u)
      && u.mem == s.mem && u.destroyed == s.destroyed && u.chain == s.chain && u.owner.Nobody? && u.threads[t].Idle?
  {
    ProbeKeeps(s, t);
    assert InsOk(s, s.threads[t].p) && ThreadOk(s, t);
    UndoKeeps(After(s, Probe(t)), t);
  }

  // ----- the states of an instance -----

  predicate Makes(th: Thread, p: nat) {
    th == Made(p) || th == Starting(p)
  }

  ghost predicate BeingMade(ths: seq<Thread>, p: nat) {
    exists t :: 0 <= t < |ths| && Makes(ths[t], p)
  }

  ghost predicate BeingDeleted(ths: seq<Thread>, p: nat) {
    exists t :: 0 <= t < |ths| && ths[t] == Deleting(p)
  }

  ghost predicate BeingFreed(ths: seq<Thread>, p: nat) {
    exists t :: 0 <= t < |ths| && ths[t] == Freeing(p)
  }

  /** The state says what a thread is doing to the instance: its maker, or its destroyer outside the
      mutex and after the unlinking. Otherwise it is connected or not. */
  ghost predicate StateTells(s: State, p: nat)
    requires p in s.mem
  {
    && (s.mem[p].enmState.Initializing? <==> BeingMade(s.threads, p))
    && (s.mem[p].enmState.Disconnecting? <==> BeingDeleted(s.threads, p))
    && (s.mem[p].enmState.Destroyed? <==> BeingFreed(s.threads, p))
  }

  ghost predicate MadeApart(ths: seq<Thread>, t: nat, u: nat)
    requires t < |ths| && u < |ths|
  {
    !((ths[t].Made? || ths[t].Starting?) && Makes(ths[u], ths[t].p))
  }

  ghost predicate StatesTell(s: State) {
    && (forall p :: p in s.mem ==> StateTells(s, p))
    && (forall t, u :: 0 <= t < u < |s.threads| ==> MadeApart(s.threads, t, u))
  }

  /** What thread t makes of the states, from what the states said before. */
  lemma StateFollows(s: State, s': State, t: nat, p: nat)
    requires StatesTell(s) && OneDestroyer(s.threads) && t < |s.threads| == |s'.threads|
    requires s'.threads == s.threads[t := s'.threads[t]] && p in s.mem && p in s'.mem
    requires var e, e', a, b := s.mem[p].enmState, s'.mem[p].enmState, s.threads[t], s'.threads[t];
      && (e'.Initializing? <==> Makes(b, p) || (e.Initializing? && !Makes(a, p)))
      && (e'.Disconnecting? <==> b == Deleting(p) || (e.Disconnecting? && a != Deleting(p)))
      && (e'.Destroyed? <==> b == Freeing(p) || (e.Destroyed? && a != Freeing(p)))
    ensures StateTells(s', p)
  {
    assert StateTells(s, p);
    assert s'.threads[t] == s'.threads[t];
    forall u | 0 <= u < |s.threads| && u != t
      ensures s'.threads[u] == s.threads[u]
      ensures Makes(s.threads[t], p) ==> !Makes(s.threads[u], p)
      ensures Destroys(s.threads[t], p) ==> !Destroys(s.threads[u], p)
    {
      assert u < t ==> MadeApart(s.threads, u, t) && Single(s.threads, u, t);
      assert t < u ==> MadeApart(s.threads, t, u) && Single(s.threads, t, u);
    }
  }

  /** Nobody makes, deletes or frees an instance whose destructor was just entered. */
  lemma JustDying(s: State, t: nat, p: nat)
    requires Inv(s) && StatesTell(s) && t < |s.threads| && s.threads[t] == Marking(p)
    ensures p in s.mem && !s.mem[p].enmState.Initializing? && !s.mem[p].enmState.Disconnecting?
      && !s.mem[p].enmState.Destroyed?
  {
    assert ThreadOk(s, t) && InsOk(s, p) && StateTells(s, p);
    forall u | 0 <= u < |s.threads|
      ensures !Makes(s.threads[u], p) && s.threads[u] != Deleting(p) && s.threads[u] != Freeing(p)
    {
      SumUpdate(s.threads, u, Idle, p);
      assert u < t ==> Single(s.threads, u, t);
      assert t < u ==> Single(s.threads, t, u);
    }
  }

  /** The number of a new instance is known to nobody. */
  lemma NewIsUnknown(s: State)
    requires Inv(s)
    ensures s.next !in s.mem && forall u :: 0 <= u < |s.threads| ==> s.threads[u].Idle? || s.threads[u].p != s.next
  {
    assert s.next in s.mem ==> InsOk(s, s.next);
    forall u | 0 <= u < |s.threads| ensures s.threads[u].Idle? || s.threads[u].p != s.next { assert ThreadOk(s, u); }
  }

  lemma MakersStayApart(s: State, s': State, t: nat)
    requires StatesTell(s) && t < |s.threads| == |s'.threads| && s'.threads == s.threads[t := s'.threads[t]]
    requires var b := s'.threads[t];
      b.Made? || b.Starting? ==>
        Makes(s.threads[t], b.p) || forall u :: 0 <= u < |s.threads| && u != t ==> !Makes(s.threads[u], b.p)
    ensures forall u, v :: 0 <= u < v < |s'.threads| ==> MadeApart(s'.threads, u, v)
  {
    forall u, v | 0 <= u < v < |s'.threads| ensures MadeApart(s'.threads, u, v) {
      assert MadeApart(s.threads, u, v);
    }
  }

  /** So it is after every step: in particular nobody connects an instance that is not set up yet or
      is on its way out, and no instance that is kept is left in such a state. */
  lemma StatesKeep(s: State, st: Step)
    requires Inv(s) && StatesTell(s)
    ensures StatesTell(After(s, st))
  {
    if Enabled(s, st) {
      var t := st.t;
      var s' := After(s, st);
      NewIsUnknown(s);
      if st.Mark? { JustDying(s, t, s.threads[t].p); }
      assert OneDestroyer(s.threads);
      OneMoves(s, st);
      hide Inv, OneDestroyer;
      MakersStayApart(s, s', t);
      forall p | p in s'.mem ensures StateTells(s', p) {
        if p in s.mem {
          assert StateTells(s, p);
          assert Makes(s.threads[t], p) ==> BeingMade(s.threads, p);
          assert s.threads[t] == Deleting(p) ==> BeingDeleted(s.threads, p);
          assert s.threads[t] == Freeing(p) ==> BeingFreed(s.threads, p);
          StateMoves(s, st, p);
          hide After, StateTells;
          StateFollows(s, s', t, p);
        } else {
          assert s'.threads[t] == Made(p);
        }
      }
    }
  }

  lemma OneMoves(s: State, st: Step)
    requires Enabled(s, st)
    ensures var s' := After(s, st); |s'.threads| == |s.threads| && s'.threads == s.threads[st.t := s'.threads[st.t]]
  {
  }

  lemma StateMoves(s: State, st: Step, p: nat)
    requires Enabled(s, st) && p in s.mem && p in After(s, st).mem && p != s.next
    requires var a, e := s.threads[st.t], s.mem[p].enmState;
      && (Makes(a, p) ==> e.Initializing?)
      && (a == Deleting(p) ==> e.Disconnecting?) && (a == Freeing(p) ==> e.Destroyed?)
      && (a == Marking(p) ==> !e.Initializing? && !e.Disconnecting? && !e.Destroyed?)
    ensures var s' := After(s, st);
      var e, e', a, b := s.mem[p].enmState, s'.mem[p].enmState, s.threads[st.t], s'.threads[st.t];
      && (e'.Initializing? <==> Makes(b, p) || (e.Initializing? && !Makes(a, p)))
      && (e'.Disconnecting? <==> b == Deleting(p) || (e.Disconnecting? && a != Deleting(p)))
      && (e'.Destroyed? <==> b == Freeing(p) || (e.Destroyed? && a != Freeing(p)))
  {
  }

  lemma {:induction false} StatesTellInRun(s: State, run: seq<Step>)
    requires Inv(s) && StatesTell(s) && Sheltered(s, run)
    ensures StatesTell(Run(s, run))
    decreases |run|
  {
    if run != [] {
      StepKeeps(s, run[0]);
      StatesKeep(s, run[0]);
      hide Inv, StatesTell, After;
      StatesTellInRun(After(s, run[0]), run[1..]);
    }
  }

  ghost predicate JustEntered(ths: seq<Thread>, p: nat) {
    exists t :: 0 <= t < |ths| && ths[t] == Marking(p)
  }

  /** In every run: an instance is in one of its transitional states exactly while the thread at it
      is there, and a connected one is kept alive, or its destructor was entered just now. */
  lemma StatesAreRight(s: State, run: seq<Step>, p: nat)
    requires Init(s) && Sheltered(s, run) && p in Run(s, run).mem
    ensures var e := Run(s, run);
      && StateTells(e, p)
      && (e.mem[p].enmState.Connected? || e.mem[p].enmState.Unconnected? ==>
        RealSum(e.threads, p) > 0 || JustEntered(e.threads, p))
  {
    InitIsOk(s);
    RunKeeps(s, run);
    StatesTellInRun(s, run);
    var e := Run(s, run);
    assert InsOk(e, p) && StateTells(e, p);
    if RealSum(e.threads, p) == 0 {
      var t :| 0 <= t < |e.threads| && Destroys(e.threads[t], p);
    }
  }

  /** An instance becomes connected exactly when a thread that got hold of it to connect it finds it
      unconnected, so by one thread at a time; and stops being connected by the disconnection, or
      when its destructor goes to work. */
  lemma ConnectedExactly(s: State, st: Step, p: nat)
    requires Inv(s) && StatesTell(s) && Enabled(s, st) && p in s.mem && p in After(s, st).mem
    ensures var e, e', a := s.mem[p].enmState, After(s, st).mem[p].enmState, s.threads[st.t];
      e'.Connected? <==>
        if e.Connected? then !((st.Disconnect? || st.Mark?) && a.p == p)
        else st.Accept? && st.fConnect && a == Got(p) && e.Unconnected?
  {
    NewIsUnknown(s);
    assert StateTells(s, p);
    assert Makes(s.threads[st.t], p) ==> BeingMade(s.threads, p);
    assert s.threads[st.t] == Deleting(p) ==> BeingDeleted(s.threads, p);
    hide Inv, StateTells;
  }

  // ----- the failing case -----

  lemma RunOne(s: State, st: Step, rest: seq<Step>)
    ensures Run(s, [st] + rest) == Run(After(s, st), rest)
  {
    assert ([st] + rest)[1..] == rest;
  }

  /** The run of the example: the first thread creates an instance; the second finds and retains it
      while the first is in the OS specific initialization; that fails. */
  function ExampleRun(): seq<Step> {
    [New(0, 7)] + ([Insert(0)] + ([Find(1, 7)] + ([Probe(1)] + ([Accept(1, false)] + ([InitFailed(0)] + [])))))
  }

  /** The second thread is left with a reference to freed memory. */
  lemma InitFailureExample(s: State)
    requires s == State(map[], [], Nobody, [Idle, Idle], [], 0)
    ensures Init(s) && |Run(s, ExampleRun()).threads| == 2
    ensures Run(s, ExampleRun()).threads[1] == Holding(0, 1) && 0 !in Run(s, ExampleRun()).mem
  {
    var s5 := ExampleFirst(s);
    ExampleLast(s5);
    hide After;
    RunOne(s5, InitFailed(0), []);
  }

  lemma ExampleFirst(s: State) returns (s5: State)
    requires s == State(map[], [], Nobody, [Idle, Idle], [], 0)
    ensures s5 == State(map[0 := Ins(7, 2, Initializing)], [0], Nobody, [Starting(0), Holding(0, 1)], [], 1)
    ensures Run(s, ExampleRun()) == Run(s5, [InitFailed(0)] + [])
  {
    hide Run;
    var s1 := State(map[0 := Ins(7, 1, Initializing)], [], Nobody, [Made(0), Idle], [], 1);
    assert After(s, New(0, 7)) == s1;
    var s2 := s1.(threads := [Starting(0), Idle], chain := [0]);
    assert After(s1, Insert(0)) == s2;
    var s3 := s2.(threads := [Starting(0), Probing(0)], owner := Thread(1));
    assert After(s2, Find(1, 7)) == s3;
    var s4 := s3.(threads := [Starting(0), Got(0)], mem := map[0 := Ins(7, 2, Initializing)]);
    assert After(s3, Probe(1)) == s4;
    s5 := s4.(threads := [Starting(0), Holding(0, 1)], owner := Nobody);
    assert After(s4, Accept(1, false)) == s5;
    hide After;
    RunOne(s, New(0, 7), [Insert(0)] + ([Find(1, 7)] + ([Probe(1)] + ([Accept(1, false)] + ([InitFailed(0)] + [])))));
    RunOne(s1, Insert(0), [Find(1, 7)] + ([Probe(1)] + ([Accept(1, false)] + ([InitFailed(0)] + []))));
    RunOne(s2, Find(1, 7), [Probe(1)] + ([Accept(1, false)] + ([InitFailed(0)] + [])));
    RunOne(s3, Probe(1), [Accept(1, false)] + ([InitFailed(0)] + []));
    RunOne(s4, Accept(1, false), [InitFailed(0)] + []);
  }

  lemma ExampleLast(s5: State)
    requires s5 == State(map[0 := Ins(7, 2, Initializing)], [0], Nobody, [Starting(0), Holding(0, 1)], [], 1)
    ensures After(s5, InitFailed(0)) == State(map[], [], Nobody, [Idle, Holding(0, 1)], [], 1)
  {
  }
}
