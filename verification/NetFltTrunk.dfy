/** Draining a trunk of vboxnetflt/VBoxNetFlt.c before it is disconnected: the busy count, the trunk
    state, the rediscovery flag and the idle event, with senders, receivers and the waiter
    interleaved at every lock release and atomic operation. */
module NetFltTrunk {
  datatype TrunkState = Inactive | Active | Disconnecting

  /** A thread that sends or receives. */
  datatype Worker =
    | Idle
    | Retained(fSend: bool)      // it got a busy reference
    | Rediscovering              // it set the pending flag and is in the OS call
    | Finished                   // only the release is left
    | Signalling                 // its release found the count zero; the event is next

  /** The thread in pfnWaitForIdle, if any. */
  datatype Waiter = None | Testing | Waiting | Idled | TimedOut

  datatype State = State(trunk: TrunkState, cBusy: nat, fRediscoveryPending: bool, fDisconnectedFromHost: bool,
                         fEvent: bool, workers: seq<Worker>, waiter: Waiter)

  datatype Step =
    | Retain(t: nat, fSend: bool)                      // TryRetainBusyActive, TryRetainBusyNotDisconnected
    | Transmit(t: nat, fRetry: bool)                   // fRetry: preemptible, and five seconds went by
    | Rediscovered(t: nat, fFound: bool)
    | DecBusy(t: nat)
    | Signal(t: nat)
    | SetState(trunk: TrunkState)
    | HostGone                                         // the host interface disappears
    | StartWait | TestBusy | Wake | TimeOut | EndWait

  // ----- the threads between a retain and the busy release -----

  predicate IsBusy(w: Worker) {
    w.Retained? || w.Rediscovering? || w.Finished?
  }

  function BusyThreads(ws: seq<Worker>): nat {
    if ws == [] then 0 else (if IsBusy(ws[0]) then 1 else 0) + BusyThreads(ws[1..])
  }

  lemma {:induction false} BusyUpdate(ws: seq<Worker>, t: nat, w: Worker)
    requires t < |ws|
    ensures BusyThreads(ws[t := w]) == BusyThreads(ws) - (if IsBusy(ws[t]) then 1 else 0) + (if IsBusy(w) then 1 else 0)
    ensures IsBusy(ws[t]) ==> BusyThreads(ws) > 0
  {
    if t == 0 {
      assert ws[0 := w][1..] == ws[1..];
    } else {
      BusyUpdate(ws[1..], t - 1, w);
      assert ws[t := w][1..] == ws[1..][t - 1 := w];
    }
  }

  lemma {:induction false} BusyNone(ws: seq<Worker>)
    ensures BusyThreads(ws) == 0 <==> forall t :: 0 <= t < |ws| ==> !IsBusy(ws[t])
  {
    if ws != [] {
      BusyNone(ws[1..]);
      assert forall t :: 0 < t < |ws| ==> ws[t] == ws[1..][t - 1];
      assert forall t :: 0 <= t < |ws[1..]| ==> ws[1..][t] == ws[t + 1];
    }
  }

  // ----- the steps -----

  predicate Enabled(s: State, st: Step) {
    match st
    case Retain(t, _) => t < |s.workers| && s.workers[t].Idle?
    case Transmit(t, _) => t < |s.workers| && s.workers[t].Retained?
    case Rediscovered(t, _) => t < |s.workers| && s.workers[t].Rediscovering?
    case DecBusy(t) => t < |s.workers| && s.workers[t].Finished?
    case Signal(t) => t < |s.workers| && s.workers[t].Signalling?
    // The internal network serializes its calls, so the state is not set during a wait.
    case SetState(_) => s.waiter.None?
    case HostGone => true
    case StartWait => s.waiter.None? && s.trunk.Disconnecting?
    case TestBusy => s.waiter.Testing?
    case Wake => s.waiter.Waiting? && s.fEvent
    case TimeOut => s.waiter.Waiting?
    case EndWait => s.waiter.Idled? || s.waiter.TimedOut?
  }

  /** The test of the two try-retains, under the spinlock. */
  predicate MayRetain(trunk: TrunkState, fSend: bool) {
    trunk.Active? || (!fSend && trunk.Inactive?)
  }

  function Moved(s: State, t: nat, w: Worker): State
    requires t < |s.workers|
  {
    s.(workers := s.workers[t := w])
  }

  function After(s: State, st: Step): State {
    if !Enabled(s, st) then s else
    match st
    case Retain(t, fSend) =>
      if MayRetain(s.trunk, fSend) then Moved(s, t, Retained(fSend)).(cBusy := s.cBusy + 1) else s
    case Transmit(t, fRetry) =>
      // A sender on a gone interface tries to find it again, unless somebody does already.
      if s.workers[t].fSend && s.fDisconnectedFromHost && fRetry && !s.fRediscoveryPending
      then Moved(s, t, Rediscovering).(fRediscoveryPending := true)
      else Moved(s, t, Finished)
    case Rediscovered(t, fFound) =>
      Moved(s, t, Finished).(fRediscoveryPending := false,
                             fDisconnectedFromHost := if fFound then false else s.fDisconnectedFromHost)
    case DecBusy(t) =>
      if s.cBusy == 0 then s
      else Moved(s, t, if s.cBusy == 1 then Signalling else Idle).(cBusy := s.cBusy - 1)
    case Signal(t) => Moved(s, t, Idle).(fEvent := true)
    case SetState(trunk) => s.(trunk := trunk)
    case HostGone => s.(fDisconnectedFromHost := true)
    case StartWait => s.(waiter := Testing)
    case TestBusy => s.(waiter := if s.cBusy != 0 then Waiting else Idled)
    case Wake => s.(fEvent := false, waiter := Testing)
    case TimeOut => s.(waiter := TimedOut)
    case EndWait => s.(waiter := None)
  }

  // ----- the invariant -----

  ghost predicate SomeoneSignals(s: State) {
    exists t :: 0 <= t < |s.workers| && s.workers[t].Signalling?
  }

  ghost predicate Inv(s: State) {
    && s.cBusy == BusyThreads(s.workers)
    // One thread rediscovers exactly when the flag is set.
    && (s.fRediscoveryPending <==> exists t :: 0 <= t < |s.workers| && s.workers[t].Rediscovering?)
    && (forall t, u :: 0 <= t < u < |s.workers| ==> !(s.workers[t].Rediscovering? && s.workers[u].Rediscovering?))
    // A waiter is never left behind.
    && (s.waiter.Waiting? && s.cBusy == 0 ==> s.fEvent || SomeoneSignals(s))
    // Waiting is for a trunk that disconnects; success says that it is idle.
    && (!s.waiter.None? ==> s.trunk.Disconnecting?)
    && (s.waiter.Idled? ==> s.cBusy == 0)
  }

  ghost predicate Init(s: State) {
    && s.cBusy == 0 && !s.fRediscoveryPending && s.waiter.None?
    && forall t :: 0 <= t < |s.workers| ==> s.workers[t].Idle?
  }

  lemma InitOk(s: State)
    requires Init(s)
    ensures Inv(s)
  {
    BusyNone(s.workers);
  }

  /** What one worker's move keeps. */
  lemma MoveKeeps(s: State, t: nat, w: Worker, s': State)
    requires Inv(s) && t < |s.workers| && s'.workers == s.workers[t := w]
    requires s'.cBusy == s.cBusy - (if IsBusy(s.workers[t]) then 1 else 0) + (if IsBusy(w) then 1 else 0)
    requires s'.waiter == s.waiter && s'.trunk == s.trunk
    requires s'.cBusy > s.cBusy ==> !s.trunk.Disconnecting?
    requires s'.fRediscoveryPending ==
      (w.Rediscovering? || (!s.workers[t].Rediscovering? && s.fRediscoveryPending))
    requires w.Rediscovering? ==> !s.fRediscoveryPending || s.workers[t].Rediscovering?
    requires s.fEvent ==> s'.fEvent
    requires s.workers[t].Signalling? ==> s'.fEvent
    requires s'.cBusy == 0 && s.cBusy != 0 ==> w.Signalling?
    ensures Inv(s')
  {
    BusyUpdate(s.workers, t, w);
    if w.Signalling? { assert s'.workers[t].Signalling?; }
    if w.Rediscovering? { assert s'.workers[t].Rediscovering?; }
    if s.waiter.Waiting? && s.cBusy == 0 && !s.fEvent {
      var u :| 0 <= u < |s.workers| && s.workers[u].Signalling?;
      assert u != t ==> s'.workers[u].Signalling?;
    }
    if s.fRediscoveryPending {
      var u :| 0 <= u < |s.workers| && s.workers[u].Rediscovering?;
      assert u != t ==> s'.workers[u].Rediscovering?;
    }
  }

  lemma StepKeeps(s: State, st: Step)
    requires Inv(s)
    ensures Inv(After(s, st))
  {
    if Enabled(s, st) {
      if st.Retain? || WorkerStep(st) {
        WorkerStepKeeps(s, st);
      } else {
        hide BusyThreads;
        assert After(s, st).workers == s.workers;
      }
    }
  }

  lemma WorkerStepKeeps(s: State, st: Step)
    requires Inv(s) && Enabled(s, st) && (st.Retain? || WorkerStep(st))
    ensures Inv(After(s, st))
  {
    PendingSomewhere(s, st.t);
    BusyUpdate(s.workers, st.t, Idle);
    hide BusyThreads, SomeoneSignals, Inv;
    var s' := After(s, st);
    match st
    case Retain(t, fSend) => if MayRetain(s.trunk, fSend) { MoveKeeps(s, t, Retained(fSend), s'); }
    case Transmit(t, _) => MoveKeeps(s, t, s'.workers[t], s');
    case Rediscovered(t, _) => MoveKeeps(s, t, Finished, s');
    case DecBusy(t) => MoveKeeps(s, t, s'.workers[t], s');
    case Signal(t) => MoveKeeps(s, t, Idle, s');
  }

  lemma PendingSomewhere(s: State, t: nat)
    requires Inv(s) && t < |s.workers|
    ensures s.workers[t].Rediscovering? ==> s.fRediscoveryPending
    ensures IsBusy(s.workers[t]) ==> s.cBusy > 0
    ensures s.cBusy == BusyThreads(s.workers)
  {
    BusyUpdate(s.workers, t, Idle);
  }

  // ----- whole runs -----

  function Run(s: State, run: seq<Step>): State
    decreases |run|
  {
    if run == [] then s else Run(After(s, run[0]), run[1..])
  }

  lemma {:induction false} RunKeeps(s: State, run: seq<Step>)
    requires Inv(s)
    ensures Inv(Run(s, run))
    decreases |run|
  {
    if run != [] {
      StepKeeps(s, run[0]);
      RunKeeps(After(s, run[0]), run[1..]);
    }
  }

  ghost predicate KeepsState(run: seq<Step>) {
    forall i :: 0 <= i < |run| ==> !run[i].SetState?
  }

  /** Once the trunk is disconnecting, nobody gets a busy reference any more. */
  lemma {:induction false} BusyNeverRises(s: State, run: seq<Step>)
    requires Inv(s) && s.trunk.Disconnecting? && KeepsState(run)
    ensures Run(s, run).cBusy <= s.cBusy && Run(s, run).trunk.Disconnecting?
    decreases |run|
  {
    if run != [] {
      assert !run[0].SetState?;
      StepKeeps(s, run[0]);
      hide Inv, SomeoneSignals, BusyThreads;
      StepNeverRises(s, run[0]);
      BusyNeverRises(After(s, run[0]), run[1..]);
    }
  }

  lemma StepNeverRises(s: State, st: Step)
    requires s.trunk.Disconnecting? && !st.SetState?
    ensures After(s, st).cBusy <= s.cBusy && After(s, st).trunk.Disconnecting?
  {
  }

  /** When pfnWaitForIdle has seen the trunk idle, no thread is between a retain and its release,
      no rediscovery is pending, and that stays so until the state is set again. */
  lemma IdleStays(s: State, before: seq<Step>, after: seq<Step>)
    requires Init(s) && Run(s, before).waiter.Idled? && KeepsState(after)
    ensures var e := Run(Run(s, before), after);
      && e.cBusy == 0 && !e.fRediscoveryPending
      && forall t :: 0 <= t < |e.workers| ==> !IsBusy(e.workers[t])
  {
    InitOk(s);
    RunKeeps(s, before);
    BusyNeverRises(Run(s, before), after);
    RunKeeps(Run(s, before), after);
    BusyNone(Run(Run(s, before), after).workers);
  }

  /** A pending rediscovery holds a busy reference. */
  lemma PendingIsBusy(s: State)
    requires Inv(s) && s.fRediscoveryPending
    ensures s.cBusy >= 1
  {
    BusyNone(s.workers);
  }

  // ----- the drain ends -----

  function Rank(w: Worker): nat {
    match w
    case Idle => 0
    case Signalling => 1
    case Finished => 2
    case Rediscovering => 3
    case Retained(_) => 4
  }

  /** Steps left to the threads inside. */
  function Work(ws: seq<Worker>): nat {
    if ws == [] then 0 else Rank(ws[0]) + Work(ws[1..])
  }

  lemma {:induction false} WorkUpdate(ws: seq<Worker>, t: nat, w: Worker)
    requires t < |ws|
    ensures Work(ws[t := w]) == Work(ws) - Rank(ws[t]) + Rank(w)
  {
    if t == 0 {
      assert ws[0 := w][1..] == ws[1..];
    } else {
      WorkUpdate(ws[1..], t - 1, w);
      assert ws[t := w][1..] == ws[1..][t - 1 := w];
    }
  }

  predicate WorkerStep(st: Step) {
    st.Transmit? || st.Rediscovered? || st.DecBusy? || st.Signal?
  }

  /** While disconnecting, every step of a thread inside brings it nearer to its release, and no
      other step adds work. */
  lemma StepDrains(s: State, st: Step)
    requires Inv(s) && Enabled(s, st) && s.trunk.Disconnecting?
    ensures Work(After(s, st).workers) <= Work(s.workers)
    ensures WorkerStep(st) ==> Work(After(s, st).workers) < Work(s.workers)
  {
    if WorkerStep(st) {
      BusyUpdate(s.workers, st.t, Idle);
      WorkUpdate(s.workers, st.t, After(s, st).workers[st.t]);
    }
  }

  /** The steps that threads inside really take in a run. */
  function WorkerSteps(s: State, run: seq<Step>): nat
    decreases |run|
  {
    if run == [] then 0
    else (if WorkerStep(run[0]) && Enabled(s, run[0]) then 1 else 0) + WorkerSteps(After(s, run[0]), run[1..])
  }

  /** However senders, receivers and the waiter interleave, the threads inside a disconnecting trunk
      take no more steps than were left to them when it was set. */
  lemma {:induction false} DrainIsBounded(s: State, run: seq<Step>)
    requires Inv(s) && s.trunk.Disconnecting? && KeepsState(run)
    ensures WorkerSteps(s, run) + Work(Run(s, run).workers) <= Work(s.workers)
    decreases |run|
  {
    if run != [] {
      assert !run[0].SetState?;
      StepKeeps(s, run[0]);
      if Enabled(s, run[0]) { StepDrains(s, run[0]); }
      hide Inv, SomeoneSignals, BusyThreads;
      StepNeverRises(s, run[0]);
      DrainIsBounded(After(s, run[0]), run[1..]);
    }
  }

  /** As long as the trunk is busy, or a waiter could still miss the event, such a step exists; and
      a waiter for an idle trunk with no step left has the event signalled. */
  lemma DrainGoesOn(s: State)
    requires Inv(s)
    ensures s.cBusy > 0 || SomeoneSignals(s) ==> exists st :: WorkerStep(st) && Enabled(s, st)
    ensures s.waiter.Waiting? && !(exists st :: WorkerStep(st) && Enabled(s, st)) ==> Enabled(s, Wake)
  {
    BusyNone(s.workers);
    if s.cBusy > 0 {
      var t :| 0 <= t < |s.workers| && IsBusy(s.workers[t]);
      var w := s.workers[t];
      var st := if w.Retained? then Transmit(t, false)
        else if w.Rediscovering? then Rediscovered(t, false) else DecBusy(t);
      assert WorkerStep(st) && Enabled(s, st);
    } else if SomeoneSignals(s) {
      var t :| 0 <= t < |s.workers| && s.workers[t].Signalling?;
      assert WorkerStep(Signal(t)) && Enabled(s, Signal(t));
    }
  }

  // ----- who gets in, and who finds the interface again -----

  /** An active trunk lets everybody in, an inactive one those who report to the network, and a
      disconnecting one nobody: a refused thread changes nothing. */
  lemma RetainGranted(s: State, t: nat, fSend: bool)
    requires Inv(s) && Enabled(s, Retain(t, fSend))
    ensures var e := After(s, Retain(t, fSend));
      match s.trunk
      case Active => e == s.(cBusy := s.cBusy + 1, workers := s.workers[t := Retained(fSend)])
      case Inactive =>
        if fSend then e == s else e == s.(cBusy := s.cBusy + 1, workers := s.workers[t := Retained(fSend)])
      case Disconnecting => e == s
  {
  }

  /** A sender got in while the trunk was active. */
  ghost predicate SentWhileActive(s: State, run: seq<Step>, t: nat)
    decreases |run|
  {
    run != [] && ((run[0] == Retain(t, true) && s.trunk.Active?) || SentWhileActive(After(s, run[0]), run[1..], t))
  }

  lemma {:induction false} SendersWereLetIn(s: State, run: seq<Step>, t: nat)
    requires t < |s.workers| && s.workers[t] != Retained(true)
    ensures t < |Run(s, run).workers|
    ensures Run(s, run).workers[t] == Retained(true) ==> SentWhileActive(s, run, t)
    decreases |run|
  {
    if run != [] {
      var s' := After(s, run[0]);
      assert t < |s'.workers|;
      if s'.workers[t] == Retained(true) {
        assert run[0] == Retain(t, true) && s.trunk.Active?;
        WorkersStay(s', run[1..]);
      } else {
        SendersWereLetIn(s', run[1..], t);
      }
    }
  }

  lemma {:induction false} WorkersStay(s: State, run: seq<Step>)
    ensures |Run(s, run).workers| == |s.workers|
    decreases |run|
  {
    if run != [] {
      assert |After(s, run[0]).workers| == |s.workers|;
      WorkersStay(After(s, run[0]), run[1..]);
    }
  }

  /** A sender tries to find a gone interface again when five seconds went by and no other thread is
      at it, and only then; the interface counts as found exactly when the try was a success. */
  lemma RediscoversExactly(s: State, t: nat, fRetry: bool, fFound: bool)
    requires Inv(s)
    ensures Enabled(s, Transmit(t, fRetry)) ==>
      var e := After(s, Transmit(t, fRetry));
      && (e.workers[t].Rediscovering? <==>
          s.workers[t].fSend && s.fDisconnectedFromHost && fRetry
          && forall u :: 0 <= u < |s.workers| ==> !s.workers[u].Rediscovering?)
      && (!e.workers[t].Rediscovering? ==> e.workers[t].Finished?) && e.fDisconnectedFromHost == s.fDisconnectedFromHost
    ensures Enabled(s, Rediscovered(t, fFound)) ==>
      var e := After(s, Rediscovered(t, fFound));
      e.workers[t].Finished? && e.fDisconnectedFromHost == (s.fDisconnectedFromHost && !fFound)
  {
  }

  // ----- why the order in the release matters -----

  /** The event comes after the decrement: a waiter may wake up on a leftover signal, but then it
      tests the count again; so success is never reported while somebody is busy. */
  lemma SuccessMeansIdle(s: State, st: Step)
    requires Inv(s) && Enabled(s, st) && !s.waiter.Idled? && After(s, st).waiter.Idled?
    ensures s.cBusy == 0 && forall t :: 0 <= t < |s.workers| ==> !IsBusy(s.workers[t])
  {
    BusyNone(s.workers);
  }
}
