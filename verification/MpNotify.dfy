/** Event delivery of r0drv/mpnotification-r0drv.c: the walk over a linked list of registrations
    that lets go of the lock for every callback, with rotating done bits and a list generation. */
module MpNotify {
  const TWO32: int := 0x1_0000_0000
  const DONE_BITS: int := 64

  /** A record in memory; address 0 is NULL. */
  datatype Rec = Rec(pNext: nat, pfnCallback: nat, pvUser: nat, bmDone: seq<bool>)

  /** A linked registration; the serial number tells it from others at the same address. */
  datatype Reg = Reg(addr: nat, serial: nat, pfn: nat, user: nat)

  datatype Status = Success | AlreadyExists | NotFound | NoMemory | WrongOrder

  /** What other threads, or callbacks, do while the lock is free. */
  datatype Act =
    | Register(pfn: nat, user: nat, addr: nat)    // addr is what the allocator returns
    | Deregister(pfn: nat, user: nat)
    | OtherEvent                                  // another event starts, and takes the next done bit
    | OtherBit(addr: nat, bit: nat, fSet: bool)   // a bit of another event
    | Term

  function AllBits(): (bm: seq<bool>)
    ensures |bm| == DONE_BITS && forall b: nat :: 0 <= b < DONE_BITS ==> bm[b]
  {
    seq(DONE_BITS, _ => true)
  }

  // The head of what follows position k.
  function AddrAt(regs: seq<Reg>, k: nat): nat {
    if k < |regs| then regs[k].addr else 0
  }

  ghost predicate RecOk(mem: map<nat, Rec>, regs: seq<Reg>, k: nat)
    requires k < |regs|
  {
    var r := regs[k];
    && r.addr != 0 && r.addr in mem && |mem[r.addr].bmDone| == DONE_BITS
    && mem[r.addr].pfnCallback == r.pfn && mem[r.addr].pvUser == r.user
    && mem[r.addr].pNext == AddrAt(regs, k + 1)
  }

  /** The pointers from the head on run through the registrations in order. */
  ghost predicate Chain(mem: map<nat, Rec>, regs: seq<Reg>, head: nat) {
    head == AddrAt(regs, 0) && forall k :: 0 <= k < |regs| ==> RecOk(mem, regs, k)
  }

  predicate SameKey(a: Reg, b: Reg) {
    a.pfn == b.pfn && a.user == b.user
  }

  predicate Apart(a: Reg, b: Reg) {
    a.addr != b.addr && a.serial != b.serial && !SameKey(a, b)
  }

  ghost predicate Distinct(regs: seq<Reg>, next: nat) {
    && (forall i, j :: 0 <= i < j < |regs| ==> Apart(regs[i], regs[j]))
    && (forall i :: 0 <= i < |regs| ==> regs[i].serial < next)
  }

  predicate BitSet(mem: map<nat, Rec>, r: Reg, b: nat) {
    r.addr in mem && b < |mem[r.addr].bmDone| && mem[r.addr].bmDone[b]
  }

  /** What happened to a registration that is linked now: it was there before, and its bit b is as
      it was, or it is new with the bit set. */
  ghost predicate Came(mem: map<nat, Rec>, regs: seq<Reg>, next: nat, mem': map<nat, Rec>, r: Reg, b: nat) {
    if r.serial < next then r in regs && (BitSet(mem', r, b) <==> BitSet(mem, r, b)) else BitSet(mem', r, b)
  }

  ghost predicate Evolved(mem: map<nat, Rec>, regs: seq<Reg>, next: nat, mem': map<nat, Rec>, regs': seq<Reg>, b: nat) {
    forall k :: 0 <= k < |regs'| ==> Came(mem, regs, next, mem', regs'[k], b)
  }

  // ----- what others make of the list -----

  /** The list, the serial number of the next registration, and the global counters. */
  datatype ListState = ListState(regs: seq<Reg>, next: nat, iGeneration: nat, iDoneBit: nat, fSpinlock: bool)

  ghost function Addrs(regs: seq<Reg>): set<nat> {
    set k | 0 <= k < |regs| :: regs[k].addr
  }

  ghost function Acted(l: ListState, act: Act): ListState {
    match act
    case Register(pfn, user, addr) =>
      if l.fSpinlock && FirstWith(l.regs, pfn, user) == |l.regs| && addr != 0 && addr !in Addrs(l.regs)
      then l.(regs := l.regs + [Reg(addr, l.next, pfn, user)], next := l.next + 1,
              iGeneration := (l.iGeneration + 1) % TWO32)
      else l
    case Deregister(pfn, user) =>
      var k := FirstWith(l.regs, pfn, user);
      if l.fSpinlock && k < |l.regs|
      then l.(regs := l.regs[..k] + l.regs[k + 1..], iGeneration := (l.iGeneration + 1) % TWO32)
      else l
    case OtherEvent => l.(iDoneBit := (l.iDoneBit + 1) % TWO32)
    case OtherBit(_, _, _) => l
    case Term =>
      if l.fSpinlock then l.(regs := [], iGeneration := (l.iGeneration + 1) % TWO32, fSpinlock := false) else l
  }

  ghost function AfterActs(l: ListState, acts: seq<Act>): ListState
    decreases |acts|
  {
    if acts == [] then l else AfterActs(Acted(l, acts[0]), acts[1..])
  }

  function Script(env: seq<seq<Act>>, i: nat): seq<Act> {
    if i < |env| then env[i] else []
  }

  /** The list after the first n callbacks of an event. */
  ghost function Lasted(l: ListState, env: seq<seq<Act>>, n: nat): ListState {
    if n == 0 then l else AfterActs(Lasted(l, env, n - 1), Script(env, n - 1))
  }

  /** Nobody does anything while the lock is free. */
  ghost predicate Quiet(env: seq<seq<Act>>) {
    forall i :: 0 <= i < |env| ==> env[i] == []
  }

  lemma {:induction false} QuietLasts(l: ListState, env: seq<seq<Act>>, n: nat)
    requires Quiet(env)
    ensures Lasted(l, env, n) == l
  {
    if n > 0 { QuietLasts(l, env, n - 1); }
  }

  /** Nobody deregisters r or takes the whole list away. */
  ghost predicate Spares(acts: seq<Act>, r: Reg) {
    forall i :: 0 <= i < |acts| ==> acts[i] != Deregister(r.pfn, r.user) && acts[i] != Term
  }

  ghost predicate AllSpare(env: seq<seq<Act>>, r: Reg) {
    forall i :: 0 <= i < |env| ==> Spares(env[i], r)
  }

  lemma ActedSpares(l: ListState, act: Act, r: Reg)
    requires r in l.regs && act != Deregister(r.pfn, r.user) && act != Term
    ensures r in Acted(l, act).regs
  {
    if act.Deregister? {
      var k := FirstWith(l.regs, act.pfn, act.user);
      var i :| 0 <= i < |l.regs| && l.regs[i] == r;
      if k < |l.regs| {
        assert (l.regs[..k] + l.regs[k + 1..])[if i < k then i else i - 1] == r;
      }
    }
  }

  lemma {:induction false} ActsSpare(l: ListState, acts: seq<Act>, r: Reg)
    requires r in l.regs && Spares(acts, r)
    ensures r in AfterActs(l, acts).regs
    decreases |acts|
  {
    if acts != [] {
      ActedSpares(l, acts[0], r);
      ActsSpare(Acted(l, acts[0]), acts[1..], r);
    }
  }

  /** So it stays linked. */
  lemma {:induction false} SparedStays(l: ListState, env: seq<seq<Act>>, n: nat, r: Reg)
    requires r in l.regs && AllSpare(env, r)
    ensures r in Lasted(l, env, n).regs
  {
    if n > 0 {
      SparedStays(l, env, n - 1, r);
      ActsSpare(Lasted(l, env, n - 1), Script(env, n - 1), r);
    }
  }

  /** The next 63 events have done bits of their own. */
  lemma BitsRotate(iDoneBit: nat, k: nat)
    requires iDoneBit < TWO32 && 0 < k < DONE_BITS
    ensures NextDoneBit((iDoneBit + k) % TWO32) != NextDoneBit(iDoneBit)
  {
  }

  /** Every registration was linked when it was called. */
  ghost predicate CalledLinked(calls: seq<Reg>, l: ListState, env: seq<seq<Act>>) {
    forall i :: 0 <= i < |calls| ==> calls[i] in Lasted(l, env, i).regs
  }

  // ----- an event in progress -----

  datatype Call = Call(pfn: nat, user: nat)

  function NextDoneBit(iDoneBit: nat): nat {
    (iDoneBit + 1) % TWO32 % DONE_BITS
  }

  ghost predicate EnvOk(env: seq<seq<Act>>, b: nat) {
    forall i :: 0 <= i < |env| ==> ActsOk(env[i], b)
  }

  ghost predicate ActsOk(acts: seq<Act>, b: nat) {
    |acts| < TWO32 && forall i :: 0 <= i < |acts| && acts[i].OtherBit? ==> acts[i].bit != b
  }

  /** The event's bit is clear exactly in the registrations of its start still to be called. */
  ghost predicate Event(mem: map<nat, Rec>, regs: seq<Reg>, next: nat, start: seq<Reg>, n0: nat,
                        calls: seq<Reg>, made: seq<Call>, b: nat, env: seq<seq<Act>>) {
    && n0 <= next && b < DONE_BITS && EnvOk(env, b) && Distinct(start, n0)
    && (forall k :: 0 <= k < |regs| ==> regs[k] in start || regs[k].serial >= n0)
    && (forall k :: 0 <= k < |regs| ==> (BitSet(mem, regs[k], b) <==> regs[k] !in start || regs[k] in calls))
    && (forall i :: 0 <= i < |calls| ==> calls[i] in start)
    && (forall i, j :: 0 <= i < j < |calls| ==> calls[i] != calls[j])
    && |made| == |calls| && forall i :: 0 <= i < |calls| ==> made[i] == Call(calls[i].pfn, calls[i].user)
  }

  ghost predicate NonePending(regs: seq<Reg>, start: seq<Reg>, calls: seq<Reg>) {
    forall k :: 0 <= k < |regs| && regs[k] in start ==> regs[k] in calls
  }

  lemma EventBegins(mem: map<nat, Rec>, regs: seq<Reg>, head: nat, next: nat, b: nat, env: seq<seq<Act>>)
    requires Distinct(regs, next) && b < DONE_BITS && EnvOk(env, b)
    requires forall k :: 0 <= k < |regs| ==> !BitSet(mem, regs[k], b)
    ensures Event(mem, regs, next, regs, next, [], [], b, env)
  {
  }

  lemma EventFacts(mem: map<nat, Rec>, regs: seq<Reg>, next: nat, start: seq<Reg>, n0: nat,
                   calls: seq<Reg>, made: seq<Call>, b: nat, env: seq<seq<Act>>)
    requires Event(mem, regs, next, start, n0, calls, made, b, env) && made != []
    ensures b < DONE_BITS && n0 <= next && Distinct(start, n0)
    ensures ActsOk(Script(env, |made| - 1), b)
  {
  }

  lemma NextOk(mem: map<nat, Rec>, regs: seq<Reg>, head: nat, k: nat)
    requires Chain(mem, regs, head) && k <= |regs|
    ensures AddrAt(regs, k) == 0 <==> k == |regs|
    ensures k < |regs| ==> RecOk(mem, regs, k)
    ensures k == 0 ==> head == AddrAt(regs, 0)
  {
    assert k < |regs| ==> RecOk(mem, regs, k);
  }

  lemma BitTells(mem: map<nat, Rec>, regs: seq<Reg>, head: nat, k: nat, b: nat, next: nat, start: seq<Reg>, n0: nat,
                 calls: seq<Reg>, made: seq<Call>, env: seq<seq<Act>>)
    requires Chain(mem, regs, head) && k < |regs| && Event(mem, regs, next, start, n0, calls, made, b, env)
    ensures RecOk(mem, regs, k) && b < DONE_BITS
    ensures mem[regs[k].addr].bmDone[b] <==> BitSet(mem, regs[k], b)
  {
  }

  /** The record is called and its bit set. */
  lemma MarkKeeps(mem: map<nat, Rec>, regs: seq<Reg>, head: nat, k: nat, b: nat, next: nat, start: seq<Reg>, n0: nat,
                  calls: seq<Reg>, made: seq<Call>, env: seq<seq<Act>>)
    requires Chain(mem, regs, head) && Distinct(regs, next) && k < |regs|
    requires Event(mem, regs, next, start, n0, calls, made, b, env)
    requires !BitSet(mem, regs[k], b)
    ensures RecOk(mem, regs, k) && b < DONE_BITS
    ensures var a := regs[k].addr;
      var mem' := mem[a := mem[a].(bmDone := mem[a].bmDone[b := true])];
      && Chain(mem', regs, head)
      && Event(mem', regs, next, start, n0, calls + [regs[k]], made + [Call(regs[k].pfn, regs[k].user)], b, env)
      && BitSet(mem', regs[k], b) && forall j :: 0 <= j < |regs| && BitSet(mem, regs[j], b) ==> BitSet(mem', regs[j], b)
  {
    assert RecOk(mem, regs, k);
    var a := regs[k].addr;
    BitChain(mem, regs, head, next, a, mem[a].bmDone[b := true]);
    var mem' := mem[a := mem[a].(bmDone := mem[a].bmDone[b := true])];
    hide Chain;
    forall j | 0 <= j < |regs|
      ensures BitSet(mem', regs[j], b) <==> BitSet(mem, regs[j], b) || j == k
      ensures regs[j] in calls + [regs[k]] <==> regs[j] in calls || j == k
    {
      assert j < k ==> Apart(regs[j], regs[k]);
      assert k < j ==> Apart(regs[k], regs[j]);
    }
  }

  /** Whatever others do, the event's bits still tell what is pending. */
  lemma EvolvedKeeps(mem: map<nat, Rec>, regs: seq<Reg>, next: nat, mem': map<nat, Rec>, regs': seq<Reg>, next': nat,
                     start: seq<Reg>, n0: nat, calls: seq<Reg>, made: seq<Call>, b: nat, env: seq<seq<Act>>)
    requires Event(mem, regs, next, start, n0, calls, made, b, env)
    requires Evolved(mem, regs, next, mem', regs', b) && next <= next'
    ensures Event(mem', regs', next', start, n0, calls, made, b, env)
  {
  }

  /** When the record called was the last one, nothing was pending, and what others linked since
      is not this event's. */
  lemma LastWasCalled(mem: map<nat, Rec>, regs: seq<Reg>, next: nat, mem': map<nat, Rec>, regs': seq<Reg>,
                      start: seq<Reg>, n0: nat, calls: seq<Reg>, b: nat)
    requires Evolved(mem, regs, next, mem', regs', b) && n0 <= next && Distinct(start, n0)
    requires NonePending(regs, start, calls)
    ensures NonePending(regs', start, calls)
  {
  }

  lemma AllSetNonePending(mem: map<nat, Rec>, regs: seq<Reg>, next: nat, start: seq<Reg>, n0: nat,
                          calls: seq<Reg>, made: seq<Call>, b: nat, env: seq<seq<Act>>)
    requires Event(mem, regs, next, start, n0, calls, made, b, env)
    requires forall j :: 0 <= j < |regs| ==> BitSet(mem, regs[j], b)
    ensures NonePending(regs, start, calls)
  {
  }

  lemma BitsStay(mem: map<nat, Rec>, regs: seq<Reg>, next: nat, mem': map<nat, Rec>, k: nat, b: nat)
    requires Evolved(mem, regs, next, mem', regs, b) && k <= |regs|
    requires forall j :: 0 <= j < k ==> BitSet(mem, regs[j], b)
    ensures forall j :: 0 <= j < k ==> BitSet(mem', regs[j], b)
  {
  }

  /** Fewer than 2^32 changes leave the generation alone only when there were none. */
  lemma GenerationStands(g: nat, c: nat)
    requires g < TWO32 && c < TWO32 && g == (g + c) % TWO32
    ensures c == 0
  {
  }

  /** Different registrations of the start are no more than the start has. */
  lemma CallsAreFew(mem: map<nat, Rec>, regs: seq<Reg>, next: nat, start: seq<Reg>, n0: nat,
                    calls: seq<Reg>, made: seq<Call>, b: nat, env: seq<seq<Act>>)
    requires Event(mem, regs, next, start, n0, calls, made, b, env)
    ensures |calls| <= |start|
    ensures |made| == |calls| && forall i :: 0 <= i < |calls| ==> made[i] == Call(calls[i].pfn, calls[i].user)
    ensures forall i :: 0 <= i < |calls| ==> calls[i] in start
    ensures forall i, j :: 0 <= i < j < |calls| ==> calls[i] != calls[j]
  {
    Pigeonhole(calls, start);
  }

  lemma {:induction false} Pigeonhole(calls: seq<Reg>, start: seq<Reg>)
    requires forall i :: 0 <= i < |calls| ==> calls[i] in start
    requires forall i, j :: 0 <= i < j < |calls| ==> calls[i] != calls[j]
    ensures |calls| <= |start|
    decreases |calls|
  {
    if calls != [] {
      var k :| 0 <= k < |start| && start[k] == calls[0];
      var rest := start[..k] + start[k + 1..];
      forall i | 0 <= i < |calls[1..]| ensures calls[1..][i] in rest {
        var j :| 0 <= j < |start| && start[j] == calls[i + 1];
        assert rest[if j < k then j else j - 1] == calls[i + 1];
      }
      Pigeonhole(calls[1..], rest);
    }
  }

  /** The first k linked records have the event's bit set. */
  ghost predicate AllSet(mem: map<nat, Rec>, regs: seq<Reg>, k: nat, b: nat) {
    forall j :: 0 <= j < k && j < |regs| ==> BitSet(mem, regs[j], b)
  }

  /** A sound list: the pointers run through it, its registrations are different, and no record but
      the linked ones is allocated. */
  ghost predicate Linked(mem: map<nat, Rec>, regs: seq<Reg>, head: nat, next: nat) {
    Chain(mem, regs, head) && Distinct(regs, next) && mem.Keys == Addrs(regs)
  }

  // ----- the list operations on the chain -----

  /** The record at pPrev is linked past the one at k, or the head is. */
  lemma UnlinkedChain(mem: map<nat, Rec>, regs: seq<Reg>, head: nat, next: nat, k: nat)
    requires Chain(mem, regs, head) && Distinct(regs, next) && k < |regs|
    ensures var a := regs[k].addr;
      && a in mem && (k > 0 ==> regs[k - 1].addr in mem)
      && var regs' := regs[..k] + regs[k + 1..];
        var mem' := if k == 0 then mem else mem[regs[k - 1].addr := mem[regs[k - 1].addr].(pNext := mem[a].pNext)];
        && Chain(mem' - {a}, regs', if k == 0 then mem[a].pNext else head) && Distinct(regs', next)
        && forall b: nat :: Evolved(mem, regs, next, mem' - {a}, regs', b)
  {
    var a := regs[k].addr;
    var regs' := regs[..k] + regs[k + 1..];
    assert RecOk(mem, regs, k);
    assert k > 0 ==> RecOk(mem, regs, k - 1);
    var mem' := if k == 0 then mem else mem[regs[k - 1].addr := mem[regs[k - 1].addr].(pNext := mem[a].pNext)];
    UnlinkedDistinct(regs, next, k);
    assert AddrAt(regs', 0) == if k == 0 then mem[a].pNext else head;
    hide RecOk, Came;
    forall i | 0 <= i < |regs'|
      ensures RecOk(mem' - {a}, regs', i) && forall b: nat :: Came(mem, regs, next, mem' - {a}, regs'[i], b)
    {
      UnlinkedRecord(mem, regs, next, k, i);
    }
  }

  lemma UnlinkedDistinct(regs: seq<Reg>, next: nat, k: nat)
    requires Distinct(regs, next) && k < |regs|
    ensures Distinct(regs[..k] + regs[k + 1..], next)
  {
    var regs' := regs[..k] + regs[k + 1..];
    forall i, j | 0 <= i < j < |regs'| ensures Apart(regs'[i], regs'[j]) {
      assert Apart(regs[if i < k then i else i + 1], regs[if j < k then j else j + 1]);
    }
  }

  lemma UnlinkedRecord(mem: map<nat, Rec>, regs: seq<Reg>, next: nat, k: nat, i: nat)
    requires (forall j :: 0 <= j < |regs| ==> RecOk(mem, regs, j)) && Distinct(regs, next)
    requires k < |regs| && i < |regs| - 1
    ensures var a := regs[k].addr;
      && a in mem && (k > 0 ==> regs[k - 1].addr in mem)
      && var regs' := regs[..k] + regs[k + 1..];
        var mem' := if k == 0 then mem else mem[regs[k - 1].addr := mem[regs[k - 1].addr].(pNext := mem[a].pNext)];
        RecOk(mem' - {a}, regs', i) && forall b: nat :: Came(mem, regs, next, mem' - {a}, regs'[i], b)
  {
    var regs' := regs[..k] + regs[k + 1..];
    var j := if i < k then i else i + 1;
    assert RecOk(mem, regs, k) && RecOk(mem, regs, j) && regs'[i] == regs[j];
    assert k > 0 ==> RecOk(mem, regs, k - 1);
    assert Apart(regs[if j < k then j else k], regs[if j < k then k else j]);
    assert k > 0 && j < k - 1 ==> Apart(regs[j], regs[k - 1]);
    assert k > 0 && j > k - 1 ==> Apart(regs[k - 1], regs[j]);
    hide Distinct;
  }

  /** A new record at the tail, its address not in use. */
  lemma LinkedChain(mem: map<nat, Rec>, regs: seq<Reg>, head: nat, next: nat, a: nat, pfn: nat, user: nat)
    requires Chain(mem, regs, head) && Distinct(regs, next) && a != 0 && a !in mem
    requires FirstWith(regs, pfn, user) == |regs|
    ensures var n := |regs|;
      && (n > 0 ==> regs[n - 1].addr in mem)
      && var regs' := regs + [Reg(a, next, pfn, user)];
        var mem0 := mem[a := Rec(0, pfn, user, AllBits())];
        var mem' := if n == 0 then mem0 else mem0[regs[n - 1].addr := mem0[regs[n - 1].addr].(pNext := a)];
        && Chain(mem', regs', if n == 0 then a else head) && Distinct(regs', next + 1)
        && forall b: nat :: b < DONE_BITS ==> Evolved(mem, regs, next, mem', regs', b)
  {
    var n := |regs|;
    var regs' := regs + [Reg(a, next, pfn, user)];
    assert n > 0 ==> RecOk(mem, regs, n - 1);
    var mem0 := mem[a := Rec(0, pfn, user, AllBits())];
    var mem' := if n == 0 then mem0 else mem0[regs[n - 1].addr := mem0[regs[n - 1].addr].(pNext := a)];
    forall i | 0 <= i < |regs'|
      ensures RecOk(mem', regs', i) && forall b: nat :: b < DONE_BITS ==> Came(mem, regs, next, mem', regs'[i], b)
    {
      assert i < n ==> RecOk(mem, regs, i);
      assert i < n - 1 ==> Apart(regs[i], regs[n - 1]);
    }
    forall i, j | 0 <= i < j < |regs'| ensures Apart(regs'[i], regs'[j]) {
      assert RecOk(mem, regs, i);
      assert j < n ==> Apart(regs[i], regs[j]);
    }
  }

  /** A change of one bit of one record. */
  lemma BitChain(mem: map<nat, Rec>, regs: seq<Reg>, head: nat, next: nat, a: nat, bm: seq<bool>)
    requires Chain(mem, regs, head) && Distinct(regs, next) && a in mem && |bm| == |mem[a].bmDone|
    ensures var mem' := mem[a := mem[a].(bmDone := bm)];
      && Chain(mem', regs, head)
      && forall b: nat :: b < |bm| && bm[b] == mem[a].bmDone[b] ==> Evolved(mem, regs, next, mem', regs, b)
  {
    var mem' := mem[a := mem[a].(bmDone := bm)];
    forall i | 0 <= i < |regs|
      ensures RecOk(mem', regs, i)
      ensures forall b: nat :: b < |bm| && bm[b] == mem[a].bmDone[b] ==> Came(mem, regs, next, mem', regs[i], b)
    {
      assert RecOk(mem, regs, i);
    }
  }

  lemma EvolvedJoins(m0: map<nat, Rec>, r0: seq<Reg>, n0: nat, m1: map<nat, Rec>, r1: seq<Reg>, n1: nat,
                     m2: map<nat, Rec>, r2: seq<Reg>, b: nat)
    requires Evolved(m0, r0, n0, m1, r1, b) && Evolved(m1, r1, n1, m2, r2, b) && n0 <= n1
    ensures Evolved(m0, r0, n0, m2, r2, b)
  {
  }

  // ----- the same on sound lists -----

  lemma NothingEvolved(mem: map<nat, Rec>, regs: seq<Reg>, head: nat, next: nat)
    requires Linked(mem, regs, head, next)
    ensures forall b: nat :: b < DONE_BITS ==> Evolved(mem, regs, next, mem, regs, b)
  {
    SameEvolved(mem, regs, next);
  }

  /** What a search that ended at position k met. */
  lemma FoundOk(mem: map<nat, Rec>, regs: seq<Reg>, head: nat, next: nat, k: nat)
    requires Linked(mem, regs, head, next) && k <= |regs|
    ensures AddrAt(regs, k) == 0 <==> k == |regs|
    ensures k < |regs| ==> regs[k].addr in mem && mem[regs[k].addr].pNext == AddrAt(regs, k + 1)
    ensures k > 0 ==> regs[k - 1].addr in mem && regs[k - 1].addr != 0
    ensures head == AddrAt(regs, 0) && mem.Keys == Addrs(regs) && (head == 0 <==> regs == [])
  {
    NextOk(mem, regs, head, k);
    NextOk(mem, regs, head, 0);
    if k > 0 { NextOk(mem, regs, head, k - 1); }
  }

  lemma UnlinkedList(mem: map<nat, Rec>, regs: seq<Reg>, head: nat, next: nat, k: nat)
    requires Linked(mem, regs, head, next) && k < |regs|
    ensures var a := regs[k].addr;
      && a in mem && (k > 0 ==> regs[k - 1].addr in mem)
      && var regs' := regs[..k] + regs[k + 1..];
        var mem' := if k == 0 then mem else mem[regs[k - 1].addr := mem[regs[k - 1].addr].(pNext := mem[a].pNext)];
        && Linked(mem' - {a}, regs', if k == 0 then mem[a].pNext else head, next)
        && forall b: nat :: Evolved(mem, regs, next, mem' - {a}, regs', b)
  {
    hide Chain, Distinct, Addrs, Evolved;
    UnlinkedChain(mem, regs, head, next, k);
    AddrsShrink(regs, next, k);
  }

  lemma LinkedList(mem: map<nat, Rec>, regs: seq<Reg>, head: nat, next: nat, a: nat, pfn: nat, user: nat)
    requires Linked(mem, regs, head, next) && a != 0 && a !in mem && FirstWith(regs, pfn, user) == |regs|
    ensures var n := |regs|;
      && (n > 0 ==> regs[n - 1].addr in mem)
      && var regs' := regs + [Reg(a, next, pfn, user)];
        var mem0 := mem[a := Rec(0, pfn, user, AllBits())];
        var mem' := if n == 0 then mem0 else mem0[regs[n - 1].addr := mem0[regs[n - 1].addr].(pNext := a)];
        && Linked(mem', regs', if n == 0 then a else head, next + 1)
        && forall b: nat :: b < DONE_BITS ==> Evolved(mem, regs, next, mem', regs', b)
  {
    hide Chain, Distinct, Addrs, Evolved;
    LinkedChain(mem, regs, head, next, a, pfn, user);
    AddrsGrow(regs, Reg(a, next, pfn, user));
  }

  /** Freeing the first record of what is left of a list that was taken away. */
  lemma FreedFirst(mem: map<nat, Rec>, left: seq<Reg>, p: nat, next: nat)
    requires Linked(mem, left, p, next) && p != 0
    ensures left != [] && p == left[0].addr && p in mem && Linked(mem - {p}, left[1..], mem[p].pNext, next)
    ensures left == [left[0]] + left[1..]
  {
    NextOk(mem, left, p, 0);
    hide Chain, Distinct, Addrs;
    TailChain(mem, left, p, next);
    AddrsShrink(left, next, 0);
    assert left[..0] + left[1..] == left[1..];
  }

  lemma FreedAll(mem: map<nat, Rec>, left: seq<Reg>, next: nat)
    requires Linked(mem, left, 0, next)
    ensures left == [] && mem == map[]
  {
    NextOk(mem, left, 0, 0);
  }

  lemma ChainOf(mem: map<nat, Rec>, regs: seq<Reg>, head: nat, next: nat)
    requires Linked(mem, regs, head, next)
    ensures Chain(mem, regs, head) && Distinct(regs, next)
  {
  }

  lemma WalkStarts(mem: map<nat, Rec>, regs: seq<Reg>, head: nat, next: nat, b: nat)
    requires Linked(mem, regs, head, next)
    ensures head == AddrAt(regs, 0) && (head == 0 <==> regs == []) && AllSet(mem, regs, 0, b)
  {
    NextOk(mem, regs, head, 0);
  }

  lemma SetOneMore(mem: map<nat, Rec>, regs: seq<Reg>, k: nat, b: nat)
    requires AllSet(mem, regs, k, b) && k < |regs| && BitSet(mem, regs[k], b)
    ensures AllSet(mem, regs, k + 1, b)
  {
  }

  lemma NoList(mem: map<nat, Rec>, regs: seq<Reg>, start: seq<Reg>, calls: seq<Reg>)
    requires regs == []
    ensures NonePending(regs, start, calls)
  {
  }

  lemma AllSetNone(mem: map<nat, Rec>, regs: seq<Reg>, next: nat, start: seq<Reg>, n0: nat,
                   calls: seq<Reg>, made: seq<Call>, b: nat, env: seq<seq<Act>>, k: nat)
    requires Event(mem, regs, next, start, n0, calls, made, b, env) && AllSet(mem, regs, k, b) && k >= |regs|
    ensures NonePending(regs, start, calls)
  {
    AllSetNonePending(mem, regs, next, start, n0, calls, made, b, env);
  }

  /** MarkKeeps on a sound list. */
  lemma MarkedList(mem: map<nat, Rec>, regs: seq<Reg>, head: nat, k: nat, b: nat, next: nat, start: seq<Reg>, n0: nat,
                   calls: seq<Reg>, made: seq<Call>, env: seq<seq<Act>>)
    requires Linked(mem, regs, head, next) && k < |regs|
    requires Event(mem, regs, next, start, n0, calls, made, b, env) && !BitSet(mem, regs[k], b)
    ensures RecOk(mem, regs, k) && b < DONE_BITS
    ensures var a := regs[k].addr;
      var mem' := mem[a := mem[a].(bmDone := mem[a].bmDone[b := true])];
      && Linked(mem', regs, head, next)
      && Event(mem', regs, next, start, n0, calls + [regs[k]], made + [Call(regs[k].pfn, regs[k].user)], b, env)
      && (AllSet(mem, regs, k, b) ==> AllSet(mem', regs, k + 1, b))
  {
    hide Distinct, Chain, Event, BitSet, Addrs;
    MarkKeeps(mem, regs, head, k, b, next, start, n0, calls, made, env);
  }

  /** What the callback of record k leaves of the bits. */
  lemma BitsAfter(m0: map<nat, Rec>, m1: map<nat, Rec>, r0: seq<Reg>, k0: nat, mem: map<nat, Rec>, regs: seq<Reg>,
                  start: seq<Reg>, n0: nat, calls: seq<Reg>, made: seq<Call>, b: nat, env: seq<seq<Act>>,
                  k: nat, c: nat)
    requires Event(m1, r0, k0, start, n0, calls, made, b, env) && Evolved(m1, r0, k0, mem, regs, b) && k < |r0|
    requires AllSet(m0, r0, k, b) ==> AllSet(m1, r0, k + 1, b)
    requires c == 0 ==> regs == r0
    ensures c == 0 && AllSet(m0, regs, k, b) ==> AllSet(mem, regs, k + 1, b)
    ensures AllSet(m0, r0, k, b) && k + 1 == |r0| ==> NonePending(regs, start, calls)
  {
    if AllSet(m0, r0, k, b) {
      if c == 0 { BitsStay(m1, r0, k0, mem, k + 1, b); }
      if k + 1 == |r0| {
        AllSetNonePending(m1, r0, k0, start, n0, calls, made, b, env);
        LastWasCalled(m1, r0, k0, mem, regs, start, n0, calls, b);
      }
    }
  }

  class Notifier {
    var mem: map<nat, Rec>
    var pHead: nat
    var iGeneration: nat
    var iDoneBit: nat
    var fSpinlock: bool
    // The list, and the serial number of the next registration.
    ghost var regs: seq<Reg>
    ghost var next: nat

    ghost predicate Valid()
      reads this
    {
      && Linked(mem, regs, pHead, next)
      && iGeneration < TWO32 && iDoneBit < TWO32
      && (!fSpinlock ==> regs == [])
    }

    ghost function List(): ListState
      reads this
    {
      ListState(regs, next, iGeneration, iDoneBit, fSpinlock)
    }

    constructor ()
      ensures Valid() && regs == [] && fSpinlock
    {
      mem := map[];
      pHead, iGeneration, iDoneBit, fSpinlock := 0, 0, 0, true;
      regs, next := [], 0;
    }

    /** The position of the registration of this pair, or the length. */
    ghost function Position(pfn: nat, user: nat): (k: nat)
      reads this`regs
      ensures k <= |regs|
    {
      FirstWith(regs, pfn, user)
    }

    /** The search of both register and deregister: the record before and the one found. */
    method Search(pfn: nat, user: nat) returns (pPrev: nat, pCur: nat)
      requires Valid()
      ensures pCur == AddrAt(regs, Position(pfn, user))
      ensures pPrev == if Position(pfn, user) == 0 then 0 else regs[Position(pfn, user) - 1].addr
    {
      hide Addrs, Distinct, Evolved;
      pPrev, pCur := 0, pHead;
      ghost var k := 0;
      assert regs[0..] == regs;
      assert regs != [] ==> RecOk(mem, regs, 0);
      while pCur != 0 && !(mem[pCur].pvUser == user && mem[pCur].pfnCallback == pfn)
        invariant k <= |regs| && pCur == AddrAt(regs, k) && (pCur != 0 ==> k < |regs| && pCur in mem)
        invariant pPrev == if k == 0 then 0 else regs[k - 1].addr
        invariant FirstWith(regs, pfn, user) == k + FirstWith(regs[k..], pfn, user)
        decreases |regs| - k
      {
        assert RecOk(mem, regs, k);
        assert regs[k..][1..] == regs[k + 1..];
        pPrev := pCur;
        pCur := mem[pCur].pNext;
        k := k + 1;
        assert k < |regs| ==> RecOk(mem, regs, k);
      }
      assert pCur != 0 ==> RecOk(mem, regs, k);
      assert pCur == 0 && k < |regs| ==> RecOk(mem, regs, k);
    }
  
    /** RTMpNotificationRegister. */
    method RegisterPair(pfn: nat, user: nat, addr: nat) returns (rc: Status)
      requires Valid()
      modifies this`mem, this`pHead, this`iGeneration, this`regs, this`next
      ensures Valid() && List() == Acted(old(List()), Register(pfn, user, addr))
      ensures rc == if !fSpinlock then WrongOrder
        else if FirstWith(old(regs), pfn, user) < |old(regs)| then AlreadyExists
        else if addr == 0 || addr in old(mem) then NoMemory else Success
      ensures !rc.Success? ==> unchanged(this)
      ensures next >= old(next)
      ensures forall b: nat :: b < DONE_BITS ==> Evolved(old(mem), old(regs), old(next), mem, regs, b)
    {
      hide Linked, Evolved;
      NothingEvolved(mem, regs, pHead, next);
      if !fSpinlock {
        return WrongOrder;
      }
      var pPrev, pCur := Search(pfn, user);
      FoundOk(mem, regs, pHead, next, Position(pfn, user));
      if pCur != 0 {
        return AlreadyExists;
      }
      if addr == 0 || addr in mem {
        return NoMemory;
      }
      LinkedList(mem, regs, pHead, next, addr, pfn, user);
      mem := mem[addr := Rec(0, pfn, user, AllBits())];
      // The second search meets no duplicate, so it ends at the tail.
      if pHead == 0 {
        pHead := addr;
      } else {
        mem := mem[pPrev := mem[pPrev].(pNext := addr)];
      }
      regs, next := regs + [Reg(addr, next, pfn, user)], next + 1;
      iGeneration := (iGeneration + 1) % TWO32;
      rc := Success;
    }

    /** RTMpNotificationDeregister. */
    method DeregisterPair(pfn: nat, user: nat) returns (rc: Status)
      requires Valid()
      modifies this`mem, this`pHead, this`iGeneration, this`regs
      ensures Valid() && List() == Acted(old(List()), Deregister(pfn, user))
      ensures rc == if !fSpinlock then WrongOrder
        else if FirstWith(old(regs), pfn, user) == |old(regs)| then NotFound else Success
      ensures !rc.Success? ==> unchanged(this)
      ensures forall b: nat :: b < DONE_BITS ==> Evolved(old(mem), old(regs), next, mem, regs, b)
    {
      hide Linked, Evolved;
      NothingEvolved(mem, regs, pHead, next);
      if !fSpinlock {
        return WrongOrder;
      }
      var pPrev, pCur := Search(pfn, user);
      ghost var k := Position(pfn, user);
      FoundOk(mem, regs, pHead, next, k);
      if pCur == 0 {
        return NotFound;
      }
      UnlinkedList(mem, regs, pHead, next, k);
      if pPrev != 0 {
        mem := mem[pPrev := mem[pPrev].(pNext := mem[pCur].pNext)];
      } else {
        pHead := mem[pCur].pNext;
      }
      mem := mem - {pCur};
      regs := regs[..k] + regs[k + 1..];
      iGeneration := (iGeneration + 1) % TWO32;
      rc := Success;
    }

    /** rtR0MpNotificationTerm: the list is taken away, then freed record by record. */
    method Terminate()
      requires Valid()
      modifies this`mem, this`pHead, this`iGeneration, this`fSpinlock, this`regs
      ensures Valid() && regs == [] && !fSpinlock && mem == map[]
      ensures forall r :: r in old(regs) ==> r.addr !in mem
      ensures List() == Acted(old(List()), Term)
      ensures if old(fSpinlock) then iGeneration == (old(iGeneration) + 1) % TWO32 else unchanged(this)
    {
      if !fSpinlock {
        assert regs == [];
        return;
      }
      hide Linked;
      fSpinlock := false;
      var p := pHead;
      ghost var left := regs;
      pHead := 0;
      regs := [];
      iGeneration := (iGeneration + 1) % TWO32;
      while p != 0
        invariant Linked(mem, left, p, next)
        invariant forall r :: r in old(regs) ==> r in left || r.addr !in mem
        invariant pHead == 0 && regs == [] && !fSpinlock && iGeneration == (old(iGeneration) + 1) % TWO32
        decreases |left|
      {
        FreedFirst(mem, left, p, next);
        var pFree := p;
        p := mem[p].pNext;
        mem := mem - {pFree};
        left := left[1..];
      }
      FreedAll(mem, left, next);
    }

    /** A bit of another event changes. */
    method FlipBit(addr: nat, bit: nat, fSet: bool)
      requires Valid()
      modifies this`mem
      ensures Valid()
      ensures forall b: nat :: b < DONE_BITS && b != bit ==> Evolved(old(mem), regs, next, mem, regs, b)
    {
      hide Addrs;
      SameEvolved(mem, regs, next);
      if addr in mem && bit < |mem[addr].bmDone| {
        var bm := mem[addr].bmDone[bit := fSet];
        BitChain(mem, regs, pHead, next, addr, bm);
        LinkedBits(mem, regs, pHead, addr);
        mem := mem[addr := mem[addr].(bmDone := bm)];
      }
    }

    /** The lock is free: others act. c counts the list changes; the generation shows them. */
    method Interfere(acts: seq<Act>, b: nat) returns (ghost c: nat)
      requires Valid() && b < DONE_BITS
      requires forall i :: 0 <= i < |acts| && acts[i].OtherBit? ==> acts[i].bit != b
      modifies this
      ensures Valid() && Evolved(old(mem), old(regs), old(next), mem, regs, b) && next >= old(next)
      ensures c <= |acts| && iGeneration == (old(iGeneration) + c) % TWO32
      ensures c == 0 ==> regs == old(regs) && fSpinlock == old(fSpinlock)
      ensures List() == AfterActs(old(List()), acts)
    {
      c := 0;
      var i := 0;
      SameEvolved(mem, regs, next);
      assert acts[0..] == acts;
      while i < |acts|
        invariant i <= |acts| && c <= i
        invariant Valid() && Evolved(old(mem), old(regs), old(next), mem, regs, b) && next >= old(next)
        invariant iGeneration == (old(iGeneration) + c) % TWO32
        invariant c == 0 ==> regs == old(regs) && fSpinlock == old(fSpinlock)
        invariant AfterActs(List(), acts[i..]) == AfterActs(old(List()), acts)
      {
        hide Evolved, Chain, Distinct, Acted;
        assert acts[i..][1..] == acts[i + 1..];
        var d := Act1(acts[i], b, old(mem), old(regs), old(next));
        GenerationAdds(old(iGeneration), c, d);
        c := c + d;
        i := i + 1;
      }
    }

    /** One act of others. */
    method Act1(act: Act, b: nat, ghost m0: map<nat, Rec>, ghost r0: seq<Reg>, ghost n0: nat) returns (ghost d: nat)
      requires Valid() && b < DONE_BITS && (act.OtherBit? ==> act.bit != b)
      requires Evolved(m0, r0, n0, mem, regs, b) && n0 <= next
      modifies this
      ensures Valid() && Evolved(m0, r0, n0, mem, regs, b) && next >= old(next)
      ensures d <= 1 && iGeneration == (old(iGeneration) + d) % TWO32
      ensures d == 0 ==> regs == old(regs) && fSpinlock == old(fSpinlock)
      ensures List() == Acted(old(List()), act)
    {
      hide Evolved, Chain, Distinct, Addrs;
      d := 0;
      ghost var m1, r1, n1 := mem, regs, next;
      match act
      case Register(pfn, user, addr) =>
        var rc := RegisterPair(pfn, user, addr);
        d := if rc.Success? then 1 else 0;
        EvolvedJoins(m0, r0, n0, m1, r1, n1, mem, regs, b);
      case Deregister(pfn, user) =>
        var rc := DeregisterPair(pfn, user);
        d := if rc.Success? then 1 else 0;
        EvolvedJoins(m0, r0, n0, m1, r1, n1, mem, regs, b);
      case OtherEvent =>
        iDoneBit := (iDoneBit + 1) % TWO32;
      case OtherBit(addr, bit, fSet) =>
        FlipBit(addr, bit, fSet);
        EvolvedJoins(m0, r0, n0, m1, r1, n1, mem, regs, b);
      case Term =>
        d := if fSpinlock then 1 else 0;
        Terminate();
        EmptyEvolved(m0, r0, n0, mem, b);
    }

    /** The first loop of event delivery: the event's bit goes from every linked record. */
    method ClearBits(b: nat)
      requires Valid() && b < DONE_BITS
      modifies this`mem
      ensures Valid() && forall k :: 0 <= k < |regs| ==> !BitSet(mem, regs[k], b)
    {
      hide Addrs;
      var pCur := pHead;
      ghost var k := 0;
      assert regs != [] ==> RecOk(mem, regs, 0);
      while pCur != 0
        invariant k <= |regs| && pCur == AddrAt(regs, k) && (pCur != 0 ==> k < |regs|)
        invariant Valid()
        invariant forall j :: 0 <= j < k ==> !BitSet(mem, regs[j], b)
        decreases |regs| - k
      {
        assert RecOk(mem, regs, k);
        var bm := mem[pCur].bmDone[b := false];
        BitChain(mem, regs, pHead, next, pCur, bm);
        OthersApart(mem, regs, pHead, next, k);
        mem := mem[pCur := mem[pCur].(bmDone := bm)];
        pCur := mem[pCur].pNext;
        k := k + 1;
        assert k < |regs| ==> RecOk(mem, regs, k);
      }
      assert k < |regs| ==> RecOk(mem, regs, k);
    }

    /** The callback of the record at position k, with its bit set before and the lock free meanwhile.
        c counts the list changes. */
    method CallBack(pCur: nat, b: nat, env: seq<seq<Act>>, before: seq<Call>, ghost k: nat,
                    ghost start: seq<Reg>, ghost n0: nat, ghost calls0: seq<Reg>, ghost l0: ListState)
      returns (made: seq<Call>, pNext: nat, ghost calls: seq<Reg>, ghost c: nat)
      requires Valid() && Event(mem, regs, next, start, n0, calls0, before, b, env)
      requires Tracked(List(), calls0, |before|, l0, env)
      requires k < |regs| && pCur == AddrAt(regs, k) && !BitSet(mem, regs[k], b)
      modifies this
      ensures Valid() && Event(mem, regs, next, start, n0, calls, made, b, env)
      ensures Tracked(List(), calls, |made|, l0, env) && (Quiet(env) ==> List() == old(List()))
      ensures calls == calls0 + [old(regs)[k]] && pNext == AddrAt(old(regs), k + 1)
      ensures c < TWO32 && iGeneration == (old(iGeneration) + c) % TWO32
      ensures c == 0 ==> regs == old(regs) && fSpinlock == old(fSpinlock)
      ensures c == 0 && AllSet(old(mem), regs, k, b) ==> AllSet(mem, regs, k + 1, b)
      ensures AllSet(old(mem), old(regs), k, b) && k + 1 == |old(regs)| ==> NonePending(regs, start, calls)
    {
      hide Distinct, Chain, Linked, Event, Evolved, BitSet, EnvOk, AfterActs, Tracked, Addrs, Quiet, AllSet,
        NonePending;
      ghost var l, r0, m0, k0 := List(), regs, mem, next;
      ChainOf(mem, regs, pHead, next);
      BitTells(mem, regs, pHead, k, b, next, start, n0, calls0, before, env);
      NextOk(mem, regs, pHead, k);
      made := before + [Call(mem[pCur].pfnCallback, mem[pCur].pvUser)];
      calls := calls0 + [regs[k]];
      MarkedList(mem, regs, pHead, k, b, next, start, n0, calls0, before, env);
      pNext := mem[pCur].pNext;
      mem := mem[pCur := mem[pCur].(bmDone := mem[pCur].bmDone[b := true])];
      ghost var m1 := mem;
      EventFacts(mem, regs, next, start, n0, calls, made, b, env);
      c := Interfere(Script(env, |before|), b);
      TrackOn(l, calls0, r0[k], |before|, l0, env, List());
      EvolvedKeeps(m1, r0, k0, mem, regs, next, start, n0, calls, made, b, env);
      BitsAfter(m0, m1, r0, k0, mem, regs, start, n0, calls, made, b, env, k, c);
    }

    /** One walk over the list. The saved next pointer is followed only while the generation
        stands; fDone says that the walk ended on a NULL pointer. */
    method Walk(b: nat, env: seq<seq<Act>>, before: seq<Call>,
                ghost start: seq<Reg>, ghost n0: nat, ghost calls0: seq<Reg>, ghost l0: ListState)
      returns (made: seq<Call>, fDone: bool, ghost calls: seq<Reg>)
      requires Valid() && Event(mem, regs, next, start, n0, calls0, before, b, env)
      requires Tracked(List(), calls0, |before|, l0, env)
      modifies this
      ensures Valid() && Event(mem, regs, next, start, n0, calls, made, b, env)
      ensures Tracked(List(), calls, |made|, l0, env)
      ensures |calls| >= |calls0|
      // Undisturbed, one walk calls all registrations, in their order.
      ensures Quiet(env) && calls0 == [] && old(regs) == start ==> fDone && calls == start
      ensures if fDone then NonePending(regs, start, calls) else |calls| > |calls0| && fSpinlock
    {
      hide Distinct, Chain, Linked, Event, Evolved, BitSet, EnvOk, AfterActs, Tracked, Addrs, Quiet, AllSet,
        NonePending;
      ghost var fQuiet := Quiet(env) && calls0 == [] && regs == start;
      made, calls := before, calls0;
      var iGeneration0 := iGeneration;
      var pCur := pHead;
      ghost var k := 0;
      WalkStarts(mem, regs, pHead, next, b);
      while pCur != 0
        invariant k <= |regs| && pCur == AddrAt(regs, k) && (pCur != 0 ==> k < |regs|) && (pCur == 0 ==> k == |regs|)
        invariant Valid() && iGeneration == iGeneration0
        invariant Event(mem, regs, next, start, n0, calls, made, b, env)
        invariant AllSet(mem, regs, k, b) && |calls| >= |calls0|
        invariant Tracked(List(), calls, |made|, l0, env)
        invariant fQuiet ==> Quiet(env) && regs == start && calls == start[..k]
        decreases |regs| - k
      {
        if fQuiet { QuietNotSet(mem, regs, next, start, n0, calls, made, b, env, k); }
        ChainOf(mem, regs, pHead, next);
        BitTells(mem, regs, pHead, k, b, next, start, n0, calls, made, env);
        if !mem[pCur].bmDone[b] {
          ghost var r0, c := regs, 0;
          NextOk(mem, regs, pHead, k + 1);
          made, pCur, calls, c := CallBack(pCur, b, env, made, k, start, n0, calls, l0);
          k := k + 1;
          if !fSpinlock {
            NoList(mem, regs, start, calls);
            return made, true, calls;
          }
          if iGeneration != iGeneration0 {
            return made, pCur == 0, calls;
          }
          GenerationStands(iGeneration0, c);
        } else {
          NextOk(mem, regs, pHead, k);
          NextOk(mem, regs, pHead, k + 1);
          pCur := mem[pCur].pNext;
          SetOneMore(mem, regs, k, b);
          k := k + 1;
        }
      }
      AllSetNone(mem, regs, next, start, n0, calls, made, b, env, k);
      fDone := true;
    }

    /** rtMpNotificationDoCallbacks. Script i of env is what happens during the i-th callback;
        fewer than 2^32 things each time, and no event with the same done bit (see BitsRotate). */
    method DoCallbacks(env: seq<seq<Act>>) returns (made: seq<Call>, passes: nat, ghost calls: seq<Reg>)
      requires Valid() && EnvOk(env, NextDoneBit(iDoneBit))
      modifies this
      ensures Valid()
      // The calls are those of different registrations of the start of the event.
      ensures |made| == |calls| && forall i :: 0 <= i < |calls| ==> made[i] == Call(calls[i].pfn, calls[i].user)
      ensures forall i :: 0 <= i < |calls| ==> calls[i] in old(regs)
      ensures forall i, j :: 0 <= i < j < |calls| ==> calls[i] != calls[j]
      // Every registration linked at the start and still linked at the end was called.
      ensures forall r :: r in old(regs) && r in regs ==> r in calls
      ensures |calls| <= |old(regs)| && passes <= |old(regs)| + 1
      // Nobody but the others changes the list, and no call is to a record that was unlinked.
      ensures var l0 := old(List()).(iDoneBit := (old(iDoneBit) + 1) % TWO32);
        List() == Lasted(l0, env, |made|) && CalledLinked(calls, l0, env)
      // What the others spare stays linked, and so was called.
      ensures forall r :: r in old(regs) && AllSpare(env, r) ==> r in regs && r in calls
      // Undisturbed, all are called in the order of registration, and all is as before.
      ensures Quiet(env) ==> calls == old(regs) && List() == old(List()).(iDoneBit := (old(iDoneBit) + 1) % TWO32)
      ensures Quiet(env) ==> passes == if fSpinlock then 1 else 0
    {
      hide Distinct, Chain, Event, Evolved, BitSet, EnvOk, Lasted, CalledLinked, Tracked, Addrs, Quiet, AllSpare;
      iDoneBit := (iDoneBit + 1) % TWO32;
      var iDone := iDoneBit % DONE_BITS;
      made, passes, calls := [], 0, [];
      ghost var l0 := List();
      ListStarts(l0, env);
      if !fSpinlock {
        return;
      }
      ClearBits(iDone);
      ghost var start, n0 := regs, next;
      EventBegins(mem, regs, pHead, next, iDone, env);
      var fDone := false;
      while !fDone
        invariant Valid() && Event(mem, regs, next, start, n0, calls, made, iDone, env)
        invariant passes <= |calls| + (if fDone then 1 else 0)
        invariant fDone ==> NonePending(regs, start, calls)
        invariant Tracked(List(), calls, |made|, l0, env)
        invariant Quiet(env) ==>
          if fDone then calls == start && passes == 1 else calls == [] && passes == 0 && regs == start
        decreases !fDone, |start| - |calls|
      {
        CallsAreFew(mem, regs, next, start, n0, calls, made, iDone, env);
        passes := passes + 1;
        made, fDone, calls := Walk(iDone, env, made, start, n0, calls, l0);
        CallsAreFew(mem, regs, next, start, n0, calls, made, iDone, env);
      }
      CallsAreFew(mem, regs, next, start, n0, calls, made, iDone, env);
      ListLasts(List(), calls, l0, env, |made|);
    }
  }

  /** The list is what the others made of it in n callbacks, each to a linked registration. */
  ghost predicate Tracked(l: ListState, calls: seq<Reg>, n: nat, l0: ListState, env: seq<seq<Act>>) {
    n == |calls| && l == Lasted(l0, env, n) && CalledLinked(calls, l0, env)
  }

  lemma ListStarts(l: ListState, env: seq<seq<Act>>)
    ensures Lasted(l, env, 0) == l && CalledLinked([], l, env) && Tracked(l, [], 0, l, env)
  {
  }

  lemma ListLasts(l: ListState, calls: seq<Reg>, l0: ListState, env: seq<seq<Act>>, n: nat)
    requires Tracked(l, calls, n, l0, env)
    ensures l == Lasted(l0, env, n) && CalledLinked(calls, l0, env) && |calls| == n
    ensures Quiet(env) ==> l == l0
    ensures forall r :: r in l0.regs && AllSpare(env, r) ==> r in l.regs
  {
    if Quiet(env) { QuietLasts(l0, env, n); }
    forall r | r in l0.regs && AllSpare(env, r) ensures r in l.regs { SparedStays(l0, env, n, r); }
  }

  /** One more call, to a registration that is linked. */
  lemma TrackOn(l: ListState, calls: seq<Reg>, r: Reg, n: nat, l0: ListState, env: seq<seq<Act>>, l': ListState)
    requires Tracked(l, calls, n, l0, env) && r in l.regs && l' == AfterActs(l, Script(env, n))
    ensures Tracked(l', calls + [r], n + 1, l0, env)
    ensures Quiet(env) ==> l' == l
  {
    hide AfterActs;
    if Quiet(env) {
      QuietLasts(l0, env, n);
      QuietLasts(l0, env, n + 1);
    }
  }

  /** What was not called yet has its bit clear. */
  lemma QuietNotSet(mem: map<nat, Rec>, regs: seq<Reg>, next: nat, start: seq<Reg>, n0: nat,
                    calls: seq<Reg>, made: seq<Call>, b: nat, env: seq<seq<Act>>, k: nat)
    requires Event(mem, regs, next, start, n0, calls, made, b, env) && regs == start && k < |start|
    requires calls == start[..k]
    ensures !BitSet(mem, regs[k], b)
  {
    forall i | 0 <= i < k ensures start[i] != start[k] { assert Apart(start[i], start[k]); }
  }

  lemma AddrsGrow(regs: seq<Reg>, r: Reg)
    ensures Addrs(regs + [r]) == Addrs(regs) + {r.addr}
  {
    forall k | 0 <= k < |regs| ensures regs[k].addr in Addrs(regs + [r]) { assert (regs + [r])[k] == regs[k]; }
    assert (regs + [r])[|regs|] == r;
  }

  lemma AddrsShrink(regs: seq<Reg>, next: nat, k: nat)
    requires Distinct(regs, next) && k < |regs|
    ensures Addrs(regs[..k] + regs[k + 1..]) == Addrs(regs) - {regs[k].addr}
  {
    var cut := regs[..k] + regs[k + 1..];
    forall i | 0 <= i < |cut| ensures cut[i].addr in Addrs(regs) - {regs[k].addr} {
      var j := if i < k then i else i + 1;
      assert cut[i] == regs[j] && Apart(regs[if j < k then j else k], regs[if j < k then k else j]);
    }
    forall j | 0 <= j < |regs| && j != k ensures regs[j].addr in Addrs(cut) {
      assert cut[if j < k then j else j - 1] == regs[j];
    }
  }

  /** Changing one linked record's bits leaves the others'. */
  lemma OthersApart(mem: map<nat, Rec>, regs: seq<Reg>, head: nat, next: nat, k: nat)
    requires Distinct(regs, next) && k < |regs|
    ensures forall j :: 0 <= j < |regs| && j != k ==> regs[j].addr != regs[k].addr
  {
  }

  lemma GenerationAdds(g: nat, c: nat, d: nat)
    ensures ((g + c) % TWO32 + d) % TWO32 == (g + (c + d)) % TWO32
  {
  }

  lemma SameEvolved(mem: map<nat, Rec>, regs: seq<Reg>, next: nat)
    requires forall k :: 0 <= k < |regs| ==> RecOk(mem, regs, k) && regs[k].serial < next
    ensures forall b: nat :: b < DONE_BITS ==> Evolved(mem, regs, next, mem, regs, b)
  {
  }

  lemma EmptyEvolved(m0: map<nat, Rec>, r0: seq<Reg>, n0: nat, mem: map<nat, Rec>, b: nat)
    ensures Evolved(m0, r0, n0, mem, [], b)
  {
  }

  lemma LinkedBits(mem: map<nat, Rec>, regs: seq<Reg>, head: nat, a: nat)
    requires Chain(mem, regs, head) && a in mem
    ensures forall k :: 0 <= k < |regs| && regs[k].addr == a ==> |mem[a].bmDone| == DONE_BITS
  {
    forall k | 0 <= k < |regs| && regs[k].addr == a ensures |mem[a].bmDone| == DONE_BITS { assert RecOk(mem, regs, k); }
  }

  /** Freeing the first record leaves the rest linked. */
  lemma TailChain(mem: map<nat, Rec>, regs: seq<Reg>, head: nat, next: nat)
    requires Chain(mem, regs, head) && Distinct(regs, next) && regs != []
    ensures head in mem && Chain(mem - {head}, regs[1..], mem[head].pNext) && Distinct(regs[1..], next)
  {
    assert RecOk(mem, regs, 0);
    forall i | 0 <= i < |regs[1..]| ensures RecOk(mem - {head}, regs[1..], i) {
      assert RecOk(mem, regs, i + 1) && Apart(regs[0], regs[i + 1]);
    }
    forall i, j | 0 <= i < j < |regs[1..]| ensures Apart(regs[1..][i], regs[1..][j]) {
      assert Apart(regs[i + 1], regs[j + 1]);
    }
  }

  /** The first registration of a pair. */
  function FirstWith(regs: seq<Reg>, pfn: nat, user: nat): (k: nat)
    ensures k <= |regs|
    ensures k < |regs| ==> regs[k].pfn == pfn && regs[k].user == user
    ensures forall j :: 0 <= j < k ==> !(regs[j].pfn == pfn && regs[j].user == user)
  {
    if regs == [] || (regs[0].pfn == pfn && regs[0].user == user) then 0 else 1 + FirstWith(regs[1..], pfn, user)
  }
}
