/** SUPR0ObjRegister, SUPR0ObjAddRefEx, SUPR0ObjRelease and the object loop of supdrvCleanupSession
    from vboxdrv/SUPDrv.c, on the lists they change in place. Whenever the code lets go of the
    device spinlock, other threads and destructors may take any number of steps: they are
    parameters, and every method keeps the invariant whatever they are. */
module ObjRefs {
  import opened RefView
  import opened Sequences

  datatype Status = Success | ObjectDestroyed | InvalidParameter | WrongOrder | NoMemory | TryAgain

  /** What others do around a destructor call: before it, inside it, and before the lock is retaken. */
  datatype Window = Window(before: seq<Step>, during: seq<Step>, after: seq<Step>)

  /** The steps of others: the destructor and the memory of o are ours. */
  function Others(env: seq<Step>, o: nat): seq<Step> {
    if env == [] then []
    else if env[0] == Destruct(o) || env[0] == FreeMem(o) then Others(env[1..], o)
    else [env[0]] + Others(env[1..], o)
  }

  lemma {:induction false} OthersKeep(d: Dev, env: seq<Step>, o: nat)
    ensures o in d.owed ==> o in Run(d, Others(env, o)).owed
    ensures o in d.running ==> o in Run(d, Others(env, o)).running
    ensures |Run(d, Others(env, o)).sessions| == |d.sessions|
    decreases |env|
  {
    if env != [] {
      if env[0] == Destruct(o) || env[0] == FreeMem(o) {
        OthersKeep(d, env[1..], o);
      } else {
        StepKeepsDue(d, env[0], o);
        OthersKeep(After(d, env[0]), env[1..], o);
        assert Others(env, o)[1..] == Others(env[1..], o);
      }
    }
  }

  lemma StepKeepsDue(d: Dev, st: Step, o: nat)
    requires st != Destruct(o) && st != FreeMem(o)
    ensures o in d.owed ==> o in After(d, st).owed
    ensures o in d.running ==> o in After(d, st).running
    ensures |After(d, st).sessions| == |d.sessions|
  {
  }

  lemma {:induction false} RunSessions(d: Dev, env: seq<Step>)
    ensures |Run(d, env).sessions| == |d.sessions|
    decreases |env|
  {
    if env != [] {
      match env[0] { case _ => }
      assert |After(d, env[0]).sessions| == |d.sessions|;
      RunSessions(After(d, env[0]), env[1..]);
    }
  }

  /** The state after an unlinked object's destructor was called and its memory freed. */
  function Destroyed(d: Dev, o: nat, w: Window): Dev {
    var d1 := After(Run(d, Others(w.before, o)), Destruct(o));
    After(Run(d1, Others(w.during, o)), FreeMem(o))
  }

  class DevExt {
    var objs: map<nat, Obj>
    var pObjs: seq<nat>
    var sessions: seq<seq<Usage>>
    var cUsageFree: nat
    var next: nat
    // The destructor calls due, running, and made so far, by all threads.
    var owed: set<nat>
    var running: set<nat>
    var calls: seq<nat>

    function Dev(): Dev
      reads this
    {
      RefView.Dev(objs, pObjs, sessions, cUsageFree, owed, running, calls, next)
    }

    constructor (cSessions: nat)
      ensures Init(Dev()) && Inv(Dev()) && |sessions| == cSessions
    {
      objs := map[];
      pObjs := [];
      sessions := seq(cSessions, _ => []);
      cUsageFree := 0;
      next := 0;
      owed := {};
      running := {};
      calls := [];
      new;
      InitOk(Dev());
    }

    /** The lock is free: the other threads run. */
    method Interfere(env: seq<Step>)
      requires Inv(Dev())
      modifies this
      ensures Dev() == Run(old(Dev()), env) && Inv(Dev()) && |sessions| == |old(sessions)|
    {
      var d := Run(Dev(), env);
      RunKeeps(Dev(), env);
      RunSessions(Dev(), env);
      objs, pObjs, sessions, cUsageFree := d.objs, d.pObjs, d.sessions, d.cUsageFree;
      owed, running, calls, next := d.owed, d.running, d.calls, d.next;
    }

    /** SUPR0ObjRegister; fMemObj and fMemUsage say whether memory is available. */
    method ObjRegister(s: nat, fMemObj: bool, fMemUsage: bool, env: seq<Step>) returns (fOk: bool, pObj: nat)
      requires Inv(Dev()) && s < |sessions|
      modifies this
      ensures fOk <==> fMemObj && (old(cUsageFree) > 0 || fMemUsage)
      ensures var d1 := if fMemObj && old(cUsageFree) == 0 then Run(old(Dev()), env) else old(Dev());
        && s < |d1.sessions|
        && Dev() == (if fOk then Registered(d1, s, old(cUsageFree) > 0) else d1)
        && (fOk ==> pObj == d1.next)
      ensures Inv(Dev())
    {
      hide Inv, Run;
      if !fMemObj {
        return false, 0;
      }
      var fFromFree := cUsageFree > 0;
      if fFromFree {
        RegisteredKeeps(Dev(), s, true);
        cUsageFree := cUsageFree - 1;
      } else {
        Interfere(env);
        if !fMemUsage {
          return false, 0;
        }
        RegisteredKeeps(Dev(), s, false);
      }
      fOk, pObj := true, next;
      objs := objs[pObj := Obj(false, 1)];
      pObjs := [pObj] + pObjs;
      sessions := sessions[s := [Usage(pObj, 1)] + sessions[s]];
      next := next + 1;
    }

    /** The walk over a session's records to the one for an object. */
    method FindRecord(s: nat, pObj: nat) returns (k: nat)
      requires s < |sessions|
      ensures k == Find(sessions[s], pObj)
    {
      k := 0;
      while k < |sessions[s]| && sessions[s][k].pObj != pObj
        invariant k <= |sessions[s]|
        invariant Find(sessions[s], pObj) == k + Find(sessions[s][k..], pObj)
      {
        assert sessions[s][k..][1..] == sessions[s][k + 1..];
        k := k + 1;
      }
    }

    /** SUPR0ObjAddRefEx. */
    method ObjAddRefEx(pObj: nat, s: nat, fNoBlocking: bool, fMem: bool, env: seq<Step>) returns (rc: Status)
      requires Inv(Dev()) && s < |sessions|
      // The caller sees to it that the object is not freed, also across the lock drop.
      requires pObj in objs && (cUsageFree == 0 && !fNoBlocking ==> pObj in Run(Dev(), env).objs)
      modifies this
      ensures var d0 := old(Dev());
        var pre := if d0.cUsageFree > 0 then FromFree else if fNoBlocking then NoRecord else Fresh;
        var d1 := if pre.Fresh? && !d0.objs[pObj].fDead then Run(d0, env) else d0;
        && s < |d1.sessions| && pObj in d1.objs
        && Dev() == (if rc.NoMemory? then d1 else Referenced(d1, s, pObj, pre))
        && rc == (if d0.objs[pObj].fDead then WrongOrder
                  else if pre.Fresh? && !fMem then NoMemory
                  else if d1.objs[pObj].fDead then WrongOrder
                  else if pre.NoRecord? && Find(d1.sessions[s], pObj) == |d1.sessions[s]| then TryAgain
                  else Success)
        // A marked object is refused without change.
        && (d0.objs[pObj].fDead ==> rc.WrongOrder? && Dev() == d0)
        // The counts are right unless the object lost its last reference to a cleanup.
        && (Inv(Dev()) <==> rc.NoMemory? || Protected(d1, pObj) || pre.NoRecord?)
    {
      hide Inv, Run;
      if objs[pObj].fDead {
        return WrongOrder;
      }
      rc := Success;
      var fPre := cUsageFree > 0;
      ghost var pre := if fPre then FromFree else if fNoBlocking then NoRecord else Fresh;
      ghost var d1 := Dev();
      if fPre {
        cUsageFree := cUsageFree - 1;
      } else if !fNoBlocking {
        Interfere(env);
        d1 := Dev();
        if !fMem {
          return NoMemory;
        }
        fPre := true;
        if objs[pObj].fDead {
          return WrongOrder;
        }
      }
      AddRefSafeExactly(d1, s, pObj, pre);
      rc := TakeReference(pObj, s, fPre, pre);
    }

    /** The part of SUPR0ObjAddRefEx that counts the reference; pUsagePre is there when fPre. */
    method TakeReference(pObj: nat, s: nat, fPre0: bool, ghost pre: Record) returns (rc: Status)
      requires s < |sessions| && pObj in objs && !objs[pObj].fDead
      requires fPre0 == !pre.NoRecord?
      modifies this
      ensures rc == if pre.NoRecord? && Find(old(sessions)[s], pObj) == |old(sessions)[s]| then TryAgain else Success
      ensures Dev() == Referenced(old(Dev()).(cUsageFree := old(cUsageFree) + if pre.FromFree? then 1 else 0),
                           s, pObj, pre)
    {
      var fPre := fPre0;
      rc := Success;
      objs := objs[pObj := objs[pObj].(cUsage := objs[pObj].cUsage + 1)];
      var k := FindRecord(s, pObj);
      if k < |sessions[s]| {
        sessions := sessions[s := sessions[s][k := Usage(pObj, sessions[s][k].cUsage + 1)]];
      } else if fPre {
        sessions := sessions[s := [Usage(pObj, 1)] + sessions[s]];
        fPre := false;
      } else {
        objs := objs[pObj := objs[pObj].(cUsage := objs[pObj].cUsage - 1)];
        assert objs == old(objs);
        rc := TryAgain;
      }
      if fPre {
        cUsageFree := cUsageFree + 1;
      }
    }

    /** Takes an object out of the list of linked ones. */
    method Unlink(pObj: nat)
      requires pObj in pObjs
      modifies this`pObjs
      ensures pObjs == Without(old(pObjs), pObj)
    {
      if pObjs[0] == pObj {
        pObjs := pObjs[1..];
      } else {
        var i := 0;
        while pObjs[i + 1] != pObj
          invariant 0 <= i < |pObjs| - 1 && pObj !in pObjs[..i + 1]
          decreases |pObjs| - i
        {
          assert pObj in pObjs;
          assert pObjs[..i + 2] == pObjs[..i + 1] + [pObjs[i + 1]];
          i := i + 1;
        }
        WithoutAt(pObjs, i + 1);
        pObjs := pObjs[..i + 1] + pObjs[i + 2..];
      }
    }

    /** The destructor is called without the lock, then the object's memory is freed. */
    method Destroy(pObj: nat, w: Window)
      requires Inv(Dev()) && pObj in owed
      modifies this
      ensures Dev() == Destroyed(old(Dev()), pObj, w) && Inv(Dev())
      ensures pObj in calls && pObj !in objs && |sessions| == |old(sessions)|
    {
      hide Inv, Run;
      OthersKeep(Dev(), w.before, pObj);
      Interfere(Others(w.before, pObj));
      DestructKeeps(Dev(), pObj);
      owed, running, calls := owed - {pObj}, running + {pObj}, calls + [pObj];
      OthersKeep(Dev(), w.during, pObj);
      RunCalls(Dev(), Others(w.during, pObj), pObj);
      Interfere(Others(w.during, pObj));
      FreeMemKeeps(Dev(), pObj);
      running, objs := running - {pObj}, objs - {pObj};
    }

    /** The part of SUPR0ObjRelease that gives up the session's record, and unlinks the object when
        nobody else has a reference. */
    method DropRecord(s: nat, k: nat) returns (fLast: bool)
      requires s < |sessions| && k < |sessions[s]| && sessions[s][k].cUsage == 1
      requires var o := sessions[s][k].pObj; o in objs && o in pObjs && o !in owed
      modifies this
      ensures Dev() == Dropped(old(Dev()), s, k, true).(cUsageFree := old(cUsageFree) + 1)
      ensures fLast <==> old(sessions)[s][k].pObj in owed
      ensures fLast ==> old(sessions)[s][k].pObj in objs && objs[old(sessions)[s][k].pObj].fDead
    {
      var pObj := sessions[s][k].pObj;
      sessions := sessions[s := sessions[s][..k] + sessions[s][k + 1..]];
      cUsageFree := cUsageFree + 1;
      fLast := false;
      if objs[pObj].cUsage > 1 {
        objs := objs[pObj := objs[pObj].(cUsage := objs[pObj].cUsage - 1)];
      } else {
        objs := objs[pObj := objs[pObj].(fDead := true)];
        fLast := true;
        Unlink(pObj);
        owed := owed + {pObj};
      }
    }

    /** SUPR0ObjRelease. */
    method ObjRelease(pObj: nat, s: nat, w: Window) returns (rc: Status)
      requires Inv(Dev()) && s < |sessions| && pObj in objs
      modifies this
      ensures rc.InvalidParameter? <==> Count(old(sessions)[s], pObj) == 0
      ensures rc.ObjectDestroyed? <==> Count(old(sessions)[s], pObj) > 0 && Total(old(sessions), pObj) == 1
      ensures !rc.InvalidParameter? && !rc.ObjectDestroyed? ==> rc.Success?
      ensures var d1 := Released(old(Dev()), s, pObj);
        Dev() == if rc.ObjectDestroyed? then Destroyed(d1, pObj, w) else d1
      ensures rc.ObjectDestroyed? ==> pObj in calls
      // Before and during the destructor, whatever others do, the object is marked.
      ensures rc.ObjectDestroyed? ==> forall run :: MarkedOrGone(Run(Released(old(Dev()), s, pObj), run), pObj)
      ensures Inv(Dev()) && |sessions| == |old(sessions)|
    {
      AlwaysMarked(Dev(), s, pObj);
      ReleasedKeeps(Dev(), s, pObj);
      ReleasedLast(Dev(), s, pObj);
      FindMeansCount(Dev(), s, pObj);
      NotDue(Dev(), pObj);
      hide Inv, Run, Count, Total, MarkedOrGone;
      if objs[pObj].fDead {
        return InvalidParameter;
      }
      var k := FindRecord(s, pObj);
      if k == |sessions[s]| {
        return InvalidParameter;
      }
      rc := Success;
      var u := sessions[s][k];
      if u.cUsage > 1 {
        objs := objs[pObj := objs[pObj].(cUsage := objs[pObj].cUsage - 1)];
        sessions := sessions[s := sessions[s][k := Usage(pObj, u.cUsage - 1)]];
      } else {
        var fLast := DropRecord(s, k);
        if fLast {
          rc := ObjectDestroyed;
        }
      }
      if rc == ObjectDestroyed {
        Destroy(pObj, w);
      }
    }

    /** One iteration of the loop that drops a closing session's references. */
    method CleanupOnce(s: nat, w: Window)
      requires Inv(Dev()) && s < |sessions| && sessions[s] != []
      modifies this
      ensures var d0 := old(Dev());
        var o := d0.sessions[s][0].pObj;
        && o in d0.objs
        && var d1 := Dropped(d0, s, 0, false);
          Dev() == Run(if o in d1.owed then Destroyed(d1, o, w) else d1, w.after)
      ensures Inv(Dev()) && |sessions| == |old(sessions)|
    {
      HeadFacts(Dev(), s);
      DroppedKeeps(Dev(), s, 0, false);
      hide Inv, Run;
      ghost var d1 := Dropped(Dev(), s, 0, false);
      var u := sessions[s][0];
      assert sessions[s][..0] + sessions[s][1..] == sessions[s][1..];
      sessions := sessions[s := sessions[s][1..]];
      if u.cUsage < objs[u.pObj].cUsage {
        objs := objs[u.pObj := objs[u.pObj].(cUsage := objs[u.pObj].cUsage - u.cUsage)];
      } else {
        Unlink(u.pObj);
        owed := owed + {u.pObj};
        Destroy(u.pObj, w);
      }
      Interfere(w.after);
    }

    /** The object loop of supdrvCleanupSession: it stops with no reference of the session left,
        whatever the others and the destructors do in the windows. */
    method CleanupObjects(s: nat, ws: seq<Window>)
      requires Inv(Dev()) && s < |sessions|
      modifies this
      ensures Inv(Dev()) && s < |sessions| && sessions[s] == []
      ensures ws == [] ==> Dev() == Cleaned(old(Dev()), s)
    {
      var i := 0;
      while sessions[s] != []
        invariant i <= |ws| && s < |sessions| && Inv(Dev())
        invariant ws == [] ==> Cleaned(Dev(), s) == Cleaned(old(Dev()), s)
        decreases |ws| - i, |sessions[s]|
      {
        hide Inv, Cleaned, Run;
        var w := if i < |ws| then ws[i] else Window([], [], []);
        UndisturbedOnce(Dev(), s);
        CleanupOnce(s, w);
        if i < |ws| {
          i := i + 1;
        }
      }
    }
  }

  /** Without interference an iteration is CleanedOnce, and the list gets shorter. */
  lemma UndisturbedOnce(d: Dev, s: nat)
    requires Inv(d) && s < |d.sessions| && d.sessions[s] != []
    ensures var o := d.sessions[s][0].pObj;
      && o in d.objs
      && var d1 := Dropped(d, s, 0, false);
        var e := Run(if o in d1.owed then Destroyed(d1, o, Window([], [], [])) else d1, []);
        && e == CleanedOnce(d, s)
        && Cleaned(d, s) == Cleaned(e, s)
        && |e.sessions| == |d.sessions| && |e.sessions[s]| == |d.sessions[s]| - 1
  {
    HeadFacts(d, s);
    hide Inv;
  }

  lemma AlwaysMarked(d: Dev, s: nat, o: nat)
    requires Inv(d) && s < |d.sessions| && o in d.objs
    ensures Count(d.sessions[s], o) > 0 && Total(d.sessions, o) == 1 ==>
      forall run :: MarkedOrGone(Run(Released(d, s, o), run), o)
  {
    if Count(d.sessions[s], o) > 0 && Total(d.sessions, o) == 1 {
      LastReleaseMarks(d, s, o);
      ReleasedKeeps(d, s, o);
      hide Inv, Released, MarkedOrGone, Run;
      forall run ensures MarkedOrGone(Run(Released(d, s, o), run), o) { MarkedInRun(Released(d, s, o), run, o); }
    }
  }

  lemma NotDue(d: Dev, o: nat)
    requires Inv(d)
    ensures o in d.pObjs ==> o !in d.owed && Counted(d, o)
  {
    assert Accounted(d, o);
  }

  lemma HeadFacts(d: Dev, s: nat)
    requires Inv(d) && s < |d.sessions| && d.sessions[s] != []
    ensures var o := d.sessions[s][0].pObj; o in d.objs && o in d.pObjs && o !in d.owed
  {
    Named(d, s);
    NotDue(d, d.sessions[s][0].pObj);
  }

  lemma {:induction false} RunCalls(d: Dev, env: seq<Step>, o: nat)
    requires o in d.calls
    ensures o in Run(d, env).calls
    decreases |env|
  {
    if env != [] {
      if Enabled(d, env[0]) { OnlyDestructCalls(d, env[0], o); }
      RunCalls(After(d, env[0]), env[1..], o);
    }
  }
}
