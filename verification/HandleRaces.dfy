/** Handle allocation by several threads at once: RTHandleTableAllocWithCtx of
    common/misc/handletablectx.c as a step machine. One step is one region under the lock, or the
    memory allocation in between; the regions change the table as the methods of HandleTable do. */
module HandleRaces {
  import opened HandleView

  /** Where an allocating thread stands while it does not hold the lock. */
  datatype Pc =
    | Start
    | Top                          // at the head of the loop
    | Planned(level1: nat)         // lock dropped to get memory; new first-level size or 0
    | Level1In                     // first level dealt with, lock dropped to free the old one
    | Done(i: nat)                 // returned success with the handle of index i
    | Freed                        // and that handle was freed since
    | Full | NoMemory | BadObject

  /** A thread with its arguments. Ghost to the code: the expansion passes entered, the value of
      cCur seen when the last one was entered, and the number of steps taken. */
  datatype Thread = Thread(obj: nat, ctx: nat, pc: Pc, passes: nat, seen: nat, steps: nat)

  datatype State = State(v: View, threads: seq<Thread>)

  datatype Step =
    | Check(t: nat)
    | Look(t: nat)
    | OutOfMemory(t: nat)
    | PutLevel1(t: nat)
    | PutTable(t: nat)
    | Free(h: nat, ctx: nat)       // any caller frees handle h for context ctx

  predicate Enabled(s: State, st: Step) {
    match st
    case Check(t) => t < |s.threads| && s.threads[t].pc.Start?
    case Look(t) => t < |s.threads| && s.threads[t].pc.Top?
    case OutOfMemory(t) => t < |s.threads| && s.threads[t].pc.Planned?
    case PutLevel1(t) => t < |s.threads| && s.threads[t].pc.Planned? && s.threads[t].pc.level1 != 0
    case PutTable(t) => t < |s.threads| && (s.threads[t].pc == Planned(0) || s.threads[t].pc.Level1In?)
    case Free(h, ctx) => h < TWO32
  }

  function Moved(s: State, v: View, t: nat, pc: Pc): State
    requires t < |s.threads|
  {
    State(v, s.threads[t := s.threads[t].(pc := pc, steps := s.threads[t].steps + 1)])
  }

  /** The region that takes the head of the free list. */
  function Grabs(s: State, v: View, t: nat): State
    requires t < |s.threads| && v.free != []
  {
    Moved(s, Grabbed(v, s.threads[t].obj, s.threads[t].ctx), t, Done(v.free[0]))
  }

  /** The region at the head of the loop: take a free entry, give up when full, or plan to expand. */
  function Looks(s: State, t: nat): State
    requires t < |s.threads|
  {
    if s.v.free != [] then Grabs(s, s.v, t)
    else if s.v.cCur >= s.v.cMax then Moved(s, s.v, t, Full)
    else
      var th := s.threads[t];
      State(s.v, s.threads[t :=
          Thread(th.obj, th.ctx, Planned(PlannedLevel1(s.v)), th.passes + 1, s.v.cCur, th.steps + 1)])
  }

  /** The region that puts the table in if there is still room, and then takes an entry from it
      without letting go of the lock; a loser frees its table and starts over. */
  function PutsTable(s: State, t: nat): State
    requires t < |s.threads|
  {
    if CanAddTable(s.v) then Grabs(s, WithTable(s.v), t) else Moved(s, s.v, t, Top)
  }

  function Disowned(threads: seq<Thread>, i: nat): (r: seq<Thread>)
    ensures |r| == |threads|
  {
    seq(|threads|, t requires 0 <= t < |threads| =>
      if threads[t].pc == Done(i) then threads[t].(pc := Freed) else threads[t])
  }

  function Frees(s: State, h: nat, ctx: nat): State {
    if Found(s.v, h, ctx) != 0
    then State(Released(s.v, IndexOf(s.v.uBase, h)), Disowned(s.threads, IndexOf(s.v.uBase, h)))
    else s
  }

  function After(s: State, st: Step): State
    requires Enabled(s, st)
  {
    match st
    case Check(t) => Moved(s, s.v, t, if IsFreeWord(s.threads[t].obj) then BadObject else Top)
    case Look(t) => Looks(s, t)
    case OutOfMemory(t) => Moved(s, s.v, t, NoMemory)
    case PutLevel1(t) => Moved(s, WithLevel1(s.v, s.threads[t].pc.level1), t, Level1In)
    case PutTable(t) => PutsTable(s, t)
    case Free(h, ctx) => Frees(s, h, ctx)
  }

  // ----- the invariant -----

  /** While cCur is still what the thread saw, the room it planned for is there. */
  ghost predicate Roomy(v: View, th: Thread) {
    && th.seen <= v.cCur && th.seen % LEVEL2_ENTRIES == 0 && th.seen < v.cMax
    && 0 < th.passes && (th.passes - 1) * LEVEL2_ENTRIES <= th.seen
    && (th.pc.Planned? ==> th.pc.level1 <= v.cMax / LEVEL2_ENTRIES)
    && (th.seen == v.cCur ==>
      v.cCur / LEVEL2_ENTRIES < if th.pc.Planned? && th.pc.level1 != 0 then th.pc.level1 else v.cLevel1)
  }

  ghost predicate ThreadOk(v: View, th: Thread) {
    && th.passes * LEVEL2_ENTRIES <= v.cMax
    && (th.pc.Start? ==> th.passes == 0 && th.steps == 0)
    && (th.pc.Top? ==> th.passes * LEVEL2_ENTRIES <= v.cCur && th.steps <= 1 + 3 * th.passes)
    && (th.pc.Planned? ==> Roomy(v, th) && th.steps <= 3 * th.passes - 1)
    && (th.pc.Level1In? ==> Roomy(v, th) && th.steps <= 3 * th.passes)
    && (th.pc.Top? || th.pc.Planned? || th.pc.Level1In? ==> !IsFreeWord(th.obj))
    && (th.pc.Done? ==> th.pc.i in v.live && v.live[th.pc.i] == Item(th.obj, th.ctx))
    && th.steps <= 2 + 3 * th.passes
  }

  predicate Apart(a: Thread, b: Thread) {
    a.pc.Done? && b.pc.Done? ==> a.pc.i != b.pc.i
  }

  ghost predicate Inv(s: State) {
    && WellFormed(s.v)
    && (forall t :: 0 <= t < |s.threads| ==> ThreadOk(s.v, s.threads[t]))
    && (forall t, u :: 0 <= t < u < |s.threads| ==> Apart(s.threads[t], s.threads[u]))
  }

  ghost predicate Init(s: State) {
    && WellFormed(s.v)
    && forall t :: 0 <= t < |s.threads| ==>
      s.threads[t].pc == Start && s.threads[t].passes == 0 && s.threads[t].steps == 0
  }

  // ----- every step keeps it -----

  /** What the other threads rely on: sizes only grow and their entries stay. */
  ghost predicate Grows(v: View, w: View, th: Thread) {
    && v.cMax == w.cMax && v.cCur <= w.cCur && v.cLevel1 <= w.cLevel1
    && (th.pc.Done? && th.pc.i in v.live ==> th.pc.i in w.live && w.live[th.pc.i] == v.live[th.pc.i])
  }

  lemma ThreadStays(v: View, w: View, th: Thread)
    requires ThreadOk(v, th) && Grows(v, w, th)
    ensures ThreadOk(w, th)
  {
  }

  lemma MovedKeeps(s: State, w: View, t: nat, th: Thread)
    requires Inv(s) && t < |s.threads| && WellFormed(w) && ThreadOk(w, th)
    requires forall u :: 0 <= u < |s.threads| && u != t ==> Grows(s.v, w, s.threads[u])
    requires th.pc.Done? ==> forall u :: 0 <= u < |s.threads| && u != t ==> Apart(s.threads[u], th)
    ensures Inv(State(w, s.threads[t := th]))
  {
  }

  lemma GrabsKeeps(s: State, v: View, t: nat)
    requires Inv(s) && t < |s.threads| && WellFormed(v) && v.free != []
    requires v.live == s.v.live && v.cMax == s.v.cMax && v.cCur >= s.v.cCur && v.cLevel1 >= s.v.cLevel1
    requires !IsFreeWord(s.threads[t].obj) && s.threads[t].steps <= 1 + 3 * s.threads[t].passes
    ensures Inv(Grabs(s, v, t))
  {
    hide *;
    var th := s.threads[t];
    var w, th' := Grabbed(v, th.obj, th.ctx), th.(pc := Done(v.free[0]), steps := th.steps + 1);
    GrabbedKeeps(v, th.obj, th.ctx);
    HeadIsFree(v);
    EachOk(s, t);
    GrabServes(s.v, v, th);
    forall u | 0 <= u < |s.threads| && u != t ensures Grows(s.v, w, s.threads[u]) && Apart(s.threads[u], th') {
      EachOk(s, u);
      GrabSpares(s.v, v, th, s.threads[u]);
    }
    MovedKeeps(s, w, t, th');
    GrabsIs(s, v, t);
  }

  lemma HeadIsFree(v: View)
    requires WellFormed(v) && v.free != []
    ensures v.free[0] !in v.live
  {
    assert v.free[0] in v.free;
  }

  lemma EachOk(s: State, u: nat)
    requires Inv(s) && u < |s.threads|
    ensures ThreadOk(s.v, s.threads[u])
  {
  }

  lemma GrabsIs(s: State, v: View, t: nat)
    requires t < |s.threads| && v.free != []
    ensures var th := s.threads[t];
      Grabs(s, v, t) == State(Grabbed(v, th.obj, th.ctx),
                              s.threads[t := th.(pc := Done(v.free[0]), steps := th.steps + 1)])
  {
    hide Grabbed;
  }

  lemma GrabServes(v0: View, v: View, th: Thread)
    requires ThreadOk(v0, th) && v.free != [] && v.cMax == v0.cMax && v.cCur >= v0.cCur && v.cLevel1 >= v0.cLevel1
    requires th.steps <= 1 + 3 * th.passes
    ensures ThreadOk(Grabbed(v, th.obj, th.ctx), th.(pc := Done(v.free[0]), steps := th.steps + 1))
  {
  }

  lemma GrabSpares(v0: View, v: View, th: Thread, other: Thread)
    requires ThreadOk(v0, other) && v.free != [] && v.free[0] !in v.live
    requires v.live == v0.live && v.cMax == v0.cMax && v.cCur >= v0.cCur && v.cLevel1 >= v0.cLevel1
    ensures Grows(v0, Grabbed(v, th.obj, th.ctx), other)
    ensures Apart(other, th.(pc := Done(v.free[0]), steps := th.steps + 1))
  {
  }

  lemma LooksKeeps(s: State, t: nat)
    requires Inv(s) && Enabled(s, Look(t))
    ensures Inv(Looks(s, t))
  {
    var th := s.threads[t];
    assert ThreadOk(s.v, th);
    hide IsFreeWord;
    if s.v.free != [] {
      hide Grabbed;
      GrabsKeeps(s, s.v, t);
    } else if s.v.cCur >= s.v.cMax {
      MovedKeeps(s, s.v, t, th.(pc := Full, steps := th.steps + 1));
    } else {
      PlanMakesRoom(s.v);
      PassFits(s.v, th.passes);
      MovedKeeps(s, s.v, t, Thread(th.obj, th.ctx, Planned(PlannedLevel1(s.v)), th.passes + 1, s.v.cCur, th.steps + 1));
    }
  }

  /** Another pass still fits under cMax, which is a whole number of tables. */
  lemma PassFits(v: View, passes: nat)
    requires WellFormed(v) && passes * LEVEL2_ENTRIES <= v.cCur < v.cMax
    ensures (passes + 1) * LEVEL2_ENTRIES <= v.cMax
  {
  }

  lemma PutTableKeeps(s: State, t: nat)
    requires Inv(s) && Enabled(s, PutTable(t))
    ensures Inv(PutsTable(s, t))
  {
    var th := s.threads[t];
    assert ThreadOk(s.v, th);
    if CanAddTable(s.v) {
      WithTableKeeps(s.v);
      GrabsKeeps(s, WithTable(s.v), t);
    } else {
      LoserWasOvertaken(s, t);
      MovedKeeps(s, s.v, t, th.(pc := Top, steps := th.steps + 1));
    }
  }

  /** A thread finds no room for its table only if another one grew cCur meanwhile. */
  lemma LoserWasOvertaken(s: State, t: nat)
    requires Inv(s) && Enabled(s, PutTable(t)) && !CanAddTable(s.v)
    ensures s.threads[t].seen + LEVEL2_ENTRIES <= s.v.cCur
    ensures s.threads[t].passes * LEVEL2_ENTRIES <= s.v.cCur
  {
    var th := s.threads[t];
    assert ThreadOk(s.v, th) && s.v.cCur % LEVEL2_ENTRIES == 0;
    assert th.seen < s.v.cCur && th.seen % LEVEL2_ENTRIES == 0 && (th.passes - 1) * LEVEL2_ENTRIES <= th.seen;
    hide *;
    MultiplesApart(th.seen, s.v.cCur);
  }

  lemma MultiplesApart(a: nat, b: nat)
    requires a % LEVEL2_ENTRIES == 0 && b % LEVEL2_ENTRIES == 0 && a < b
    ensures a + LEVEL2_ENTRIES <= b
  {
  }

  lemma FreesKeeps(s: State, h: nat, ctx: nat)
    requires Inv(s) && h < TWO32
    ensures Inv(Frees(s, h, ctx))
  {
    if Found(s.v, h, ctx) != 0 {
      var i := IndexOf(s.v.uBase, h);
      ReleasedKeeps(s.v, i);
      var s' := Frees(s, h, ctx);
      hide WellFormed, IsFreeWord;
      forall u | 0 <= u < |s'.threads| ensures ThreadOk(s'.v, s'.threads[u]) {
        assert ThreadOk(s.v, s.threads[u]);
        ThreadStays(s.v, s'.v, s'.threads[u]);
      }
      forall t, u | 0 <= t < u < |s'.threads| ensures Apart(s'.threads[t], s'.threads[u]) {
        assert Apart(s.threads[t], s.threads[u]);
      }
    }
  }

  lemma ReturnsKeeps(s: State, t: nat, pc: Pc)
    requires Inv(s) && t < |s.threads|
    requires s.threads[t].pc.Planned? || s.threads[t].pc.Start?
    requires pc == if s.threads[t].pc.Planned? then NoMemory
      else if IsFreeWord(s.threads[t].obj) then BadObject else Top
    ensures Inv(Moved(s, s.v, t, pc))
  {
  }

  lemma PutLevel1Keeps(s: State, t: nat)
    requires Inv(s) && Enabled(s, PutLevel1(t))
    ensures Inv(Moved(s, WithLevel1(s.v, s.threads[t].pc.level1), t, Level1In))
  {
  }

  /** Every step of every thread, and every free, keeps the invariant. */
  lemma StepKeeps(s: State, st: Step)
    requires Inv(s) && Enabled(s, st)
    ensures Inv(After(s, st))
  {
    hide Inv, Looks, PutsTable, Frees, WithLevel1;
    match st
    case Look(t) => LooksKeeps(s, t);
    case PutTable(t) => PutTableKeeps(s, t);
    case Free(h, ctx) => FreesKeeps(s, h, ctx);
    case PutLevel1(t) => PutLevel1Keeps(s, t);
    case Check(t) => ReturnsKeeps(s, t, if IsFreeWord(s.threads[t].obj) then BadObject else Top);
    case OutOfMemory(t) => ReturnsKeeps(s, t, NoMemory);
  }

  // ----- whole runs -----

  ghost predicate RunOk(s: State, run: seq<Step>)
    decreases |run|
  {
    run == [] || (Enabled(s, run[0]) && RunOk(After(s, run[0]), run[1..]))
  }

  function End(s: State, run: seq<Step>): State
    requires RunOk(s, run)
    decreases |run|
  {
    if run == [] then s else End(After(s, run[0]), run[1..])
  }

  lemma {:induction false} RunKeeps(s: State, run: seq<Step>)
    requires Inv(s) && RunOk(s, run)
    ensures Inv(End(s, run))
    decreases |run|
  {
    if run != [] {
      StepKeeps(s, run[0]);
      RunKeeps(After(s, run[0]), run[1..]);
    }
  }

  /** Whatever the interleaving, no handle is held by two callers, and each holder's handle finds
      its own object under its own context. */
  lemma HandlesAreUnique(s: State, run: seq<Step>, t: nat, u: nat)
    requires Init(s) && RunOk(s, run)
    requires t < |End(s, run).threads| && u < |End(s, run).threads| && t != u
    requires End(s, run).threads[t].pc.Done? && End(s, run).threads[u].pc.Done?
    ensures var e := End(s, run); var a, b := e.threads[t], e.threads[u];
      && HandleOf(e.v.uBase, a.pc.i) != HandleOf(e.v.uBase, b.pc.i)
      && Found(e.v, HandleOf(e.v.uBase, a.pc.i), a.ctx) == a.obj
  {
    RunKeeps(s, run);
    var e := End(s, run);
    var a, b := e.threads[t], e.threads[u];
    assert ThreadOk(e.v, a) && ThreadOk(e.v, b);
    assert Apart(a, b) && Apart(b, a);
    HandleRoundTrip(e.v.uBase, a.pc.i);
    HandleRoundTrip(e.v.uBase, b.pc.i);
  }

  /** Whatever the others do, one allocation enters at most cMax / 2048 expansion passes and takes
      at most three steps for each and two more. */
  lemma AllocationIsBounded(s: State, run: seq<Step>, t: nat)
    requires Init(s) && RunOk(s, run) && t < |End(s, run).threads|
    ensures var e := End(s, run); var th := e.threads[t];
      && th.passes <= e.v.cMax / LEVEL2_ENTRIES
      && th.steps <= 3 * (e.v.cMax / LEVEL2_ENTRIES) + 2
  {
    RunKeeps(s, run);
    assert ThreadOk(End(s, run).v, End(s, run).threads[t]);
  }

  predicate Returned(pc: Pc) {
    pc.Done? || pc.Freed? || pc.Full? || pc.NoMemory? || pc.BadObject?
  }

  /** A thread that has not returned can always go on, so with the bound above it returns. */
  lemma AllocationGoesOn(s: State, t: nat)
    requires t < |s.threads| && !Returned(s.threads[t].pc)
    ensures exists st ::
      Enabled(s, st) && !st.Free? && st.t == t && After(s, st).threads[t].steps == s.threads[t].steps + 1
  {
    var st := match s.threads[t].pc
      case Start => Check(t)
      case Top => Look(t)
      case Planned(level1) => if level1 == 0 then PutTable(t) else PutLevel1(t)
      case _ => PutTable(t);
    assert Enabled(s, st) && st.t == t;
  }

  /** How a thread comes to an answer other than success, step by step: out of memory only by its
      own failed allocation, a bad object only by the check of a tagged one, and no more handles
      exactly when all cMax entries are in use as it looks. Its arguments stay. */
  lemma AnswersByStep(s: State, st: Step, t: nat)
    requires Inv(s) && Enabled(s, st) && t < |s.threads|
    ensures t < |After(s, st).threads|
    ensures var a, b := s.threads[t], After(s, st).threads[t];
      && b.obj == a.obj && b.ctx == a.ctx && After(s, st).v.cMax == s.v.cMax
      && (b.pc.NoMemory? <==> a.pc.NoMemory? || st == OutOfMemory(t))
      && (b.pc.BadObject? <==> a.pc.BadObject? || (st == Check(t) && IsFreeWord(a.obj)))
      && (b.pc.Full? <==> a.pc.Full? || (st == Look(t) && |s.v.live| == s.v.cMax))
  {
  }

  /** A thread that looks is served at once when any entry is free; it goes to get memory for a new
      table exactly when all are in use and there may be more. With its table it is served unless
      another one grew the table meanwhile, and then it looks again. */
  lemma ServedAtOnce(s: State, t: nat)
    requires Inv(s) && t < |s.threads|
    ensures Enabled(s, Look(t)) ==>
      var pc := After(s, Look(t)).threads[t].pc;
      && (pc.Done? <==> |s.v.live| < s.v.cCur)
      && (pc.Planned? <==> |s.v.live| == s.v.cCur < s.v.cMax)
    ensures Enabled(s, PutTable(t)) ==>
      var e := After(s, PutTable(t));
      if s.threads[t].seen == s.v.cCur
      then e.threads[t].pc.Done? && e.v.cCur == s.v.cCur + LEVEL2_ENTRIES
      else e.threads[t].pc.Done? || (e.threads[t].pc.Top? && e.v == s.v)
  {
    if Enabled(s, PutTable(t)) { assert ThreadOk(s.v, s.threads[t]); }
  }

  /** A handle stays with the thread it was given to until someone frees it under its context; an
      object pointer of NULL cannot be freed. */
  lemma HeldUntilFreed(s: State, st: Step, t: nat)
    requires Inv(s) && Enabled(s, st) && t < |s.threads| && s.threads[t].pc.Done?
    ensures t < |After(s, st).threads|
    ensures var th, th' := s.threads[t], After(s, st).threads[t];
      th' == if st.Free? && st.h == HandleOf(s.v.uBase, th.pc.i) && st.ctx == th.ctx && th.obj != 0
             then th.(pc := Freed) else th
  {
    var i := s.threads[t].pc.i;
    assert ThreadOk(s.v, s.threads[t]);
    HandleRoundTrip(s.v.uBase, i);
    if st.Free? { HandleRoundTripBack(s.v.uBase, st.h); }
  }

  /** All cMax entries were in use when thread t looked. */
  ghost predicate SawFull(s: State, run: seq<Step>, t: nat)
    requires RunOk(s, run)
    decreases |run|
  {
    run != [] && ((run[0] == Look(t) && |s.v.live| == s.v.cMax) || SawFull(After(s, run[0]), run[1..], t))
  }

  lemma {:induction false} AnswersByRun(s: State, run: seq<Step>, t: nat)
    requires Inv(s) && RunOk(s, run) && t < |s.threads|
    ensures t < |End(s, run).threads|
    ensures var a, b := s.threads[t], End(s, run).threads[t];
      && b.obj == a.obj && b.ctx == a.ctx
      && (b.pc.NoMemory? <==> a.pc.NoMemory? || OutOfMemory(t) in run)
      && (b.pc.BadObject? <==> a.pc.BadObject? || (Check(t) in run && IsFreeWord(a.obj)))
      && (b.pc.Full? <==> a.pc.Full? || SawFull(s, run, t))
    decreases |run|
  {
    if run != [] {
      AnswersByStep(s, run[0], t);
      StepKeeps(s, run[0]);
      hide Inv, After, IsFreeWord;
      AnswersByRun(After(s, run[0]), run[1..], t);
    }
  }

  /** In every interleaving, a thread that has returned was given a handle, unless its object is
      tagged, its own memory allocation failed, or all cMax entries were in use when it looked. A
      thread that lost an expansion race is no exception. */
  lemma AllocationSucceeds(s: State, run: seq<Step>, t: nat)
    requires Init(s) && RunOk(s, run) && t < |s.threads| && t < |End(s, run).threads|
    requires Returned(End(s, run).threads[t].pc) && OutOfMemory(t) !in run
    ensures var pc := End(s, run).threads[t].pc;
      && (IsFreeWord(s.threads[t].obj) <==> pc.BadObject?)
      && (SawFull(s, run, t) <==> pc.Full?)
      && (pc.Done? || pc.Freed? <==> !IsFreeWord(s.threads[t].obj) && !SawFull(s, run, t))
  {
    AnswersByRun(s, run, t);
    Checked(s, run, t);
    hide Inv, After;
  }

  lemma StillToCheck(s: State, st: Step, t: nat)
    requires Enabled(s, st) && t < |s.threads| && s.threads[t].pc.Start? && st != Check(t)
    ensures t < |After(s, st).threads| && After(s, st).threads[t].pc.Start?
  {
  }

  lemma {:induction false} Checked(s: State, run: seq<Step>, t: nat)
    requires Inv(s) && RunOk(s, run) && t < |s.threads| && s.threads[t].pc.Start?
    ensures t < |End(s, run).threads| && (End(s, run).threads[t].pc.Start? || Check(t) in run)
    decreases |run|
  {
    AnswersByRun(s, run, t);
    if run != [] && run[0] != Check(t) {
      StepKeeps(s, run[0]);
      StillToCheck(s, run[0], t);
      hide Inv, After;
      Checked(After(s, run[0]), run[1..], t);
    }
  }

  /** "No more handles" is the answer only when all cMax entries are in use at that moment. */
  lemma FullMeansFull(s: State, st: Step, t: nat)
    requires Inv(s) && Enabled(s, st) && t < |s.threads|
    requires !s.threads[t].pc.Full? && After(s, st).threads[t].pc.Full?
    ensures |s.v.live| == s.v.cMax && After(s, st).v == s.v
  {
  }

  /** To everyone else an allocation is one atomic step: it adds one unused handle exactly when
      it returns success with that handle, and changes no other. */
  lemma AllocationHandles(s: State, st: Step)
    requires Inv(s) && Enabled(s, st) && !st.Free?
    ensures WellFormed(After(s, st).v)
    ensures var s', th := After(s, st), s.threads[st.t];
      if s'.threads[st.t].pc.Done?
      then var h := HandleOf(s.v.uBase, s'.threads[st.t].pc.i);
        h !in Handles(s.v) && Handles(s'.v) == Handles(s.v)[h := Item(th.obj, th.ctx)]
      else Handles(s'.v) == Handles(s.v)
  {
    hide IsFreeWord, Grabbed, WithTable, HandleOf, IndexOf;
    StepKeeps(s, st);
    var t := st.t;
    var th := s.threads[t];
    assert ThreadOk(s.v, th);
    if st.Look? && s.v.free != [] {
      GrabbedHandles(s.v, th.obj, th.ctx);
    } else if st.PutTable? && CanAddTable(s.v) {
      WithTableKeeps(s.v);
      WithTableHandles(s.v);
      WithTableSame(s.v);
      GrabbedHandles(WithTable(s.v), th.obj, th.ctx);
    }
  }

  lemma WithTableSame(v: View)
    ensures WithTable(v).uBase == v.uBase && WithTable(v).live == v.live
  {
  }

  /** A free removes its own handle or nothing. */
  lemma FreeHandles(s: State, h: nat, ctx: nat)
    requires Inv(s) && h < TWO32
    ensures WellFormed(Frees(s, h, ctx).v)
    ensures Handles(Frees(s, h, ctx).v) == if Found(s.v, h, ctx) != 0 then Handles(s.v) - {h} else Handles(s.v)
  {
    if Found(s.v, h, ctx) != 0 { ReleasedHandles(s.v, h); }
  }
}
