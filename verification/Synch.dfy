/**
 Semaphores, locks and condition variables as steps of the whole system, and what holds in
 every state any run can reach.

 Between turning interrupts off and turning them on again, or giving up the processor, code
 runs undisturbed; each such stretch is one step.  A thread that slept goes on, when it is
 dispatched, where it left off: `Pc` says where that is.
 */
module Synch {
  import opened PtrArrays
  import opened Threads

  // ---------------------------------------------------------------------------------------
  // States

  /** What a thread is in the middle of. */
  datatype Pc =
    | Idle
    | InP(s: nat)
    | InAcquire(l: nat)
    | InWait(c: nat, l: nat) // asleep on the condition variable
    | Rewait(l: nat)         // woken from it, and asleep on the lock

  /** A semaphore, with how often it was raised and lowered since it was made. */
  datatype Sem = Sem(count: nat, init: nat, vs: nat, ps: nat)

  datatype Lock = Lock(held: bool, pointer: Current)

  /**
   `crit` are the threads between an acquire and its release; `since` says when a sleeper fell
   asleep; `room` is the capacity of the array of sleepers.
   */
  datatype Sys = Sys(l: Lists, pc: map<Tid, Pc>, sems: map<nat, Sem>, locks: map<nat, Lock>, crit: map<nat, set<Tid>>,
                     since: map<Tid, nat>, clock: nat, room: nat, forked: bool)

  datatype Act =
    | P(s: nat) | V(s: nat)
    | Acquire(k: nat) | Release(k: nat)
    | Wait(c: nat, k: nat) | Signal(c: nat) | Broadcast(c: nat)
    | Yield | Fork(t: Tid) | Exit
    | Dispatch(isnew: bool)  // the scheduler picks a thread
    | Resume                 // the thread picked goes on where it slept
    | Interrupt(s: nat)      // a device raises a semaphore

  predicate IsIdle(s: Sys) {
    s.l.cur.Thread? && s.l.cur.tid in s.pc && s.pc[s.l.cur.tid] == Idle
  }

  /** Interrupts are on: the processor idles, or the current thread is not in the middle of anything. */
  predicate InterruptsOn(s: Sys) {
    s.l.cur.Nobody? || IsIdle(s)
  }

  /** Who may do what.  Threads release only locks they hold, as lock_release leaves to its callers. */
  predicate Enabled(s: Sys, a: Act) {
    match a
    case P(x) => IsIdle(s) && x in s.sems
    case V(x) => IsIdle(s) && x in s.sems
    case Interrupt(x) => InterruptsOn(s) && x in s.sems
    case Acquire(k) => IsIdle(s) && k in s.locks && s.locks[k].pointer != s.l.cur
    case Release(k) => IsIdle(s) && k in s.locks && k in s.crit && s.l.cur.tid in s.crit[k]
    case Wait(c, k) => IsIdle(s) && k in s.locks && k in s.crit && s.l.cur.tid in s.crit[k]
    case Signal(c) => IsIdle(s)
    case Broadcast(c) => IsIdle(s)
    case Yield => IsIdle(s)
    case Fork(t) => IsIdle(s) && t !in Census(s.l) && t !in s.pc
    case Exit => IsIdle(s)
    case Dispatch(_) => s.l.cur.Nobody? && s.l.runq != []
    case Resume => s.l.cur.Thread? && s.l.cur.tid in s.pc && s.pc[s.l.cur.tid] != Idle
  }

  /** thread_sleep, up to the switch. */
  function SleepOn(s: Sys, a: Addr, pc: Pc): Sys
    requires s.l.cur.Thread?
  {
    var t := s.l.cur.tid;
    s.(l := Threads.Stash(s.l, Asleep(a)), pc := s.pc[t := pc], since := s.since[t := s.clock], clock := s.clock + 1,
       room := Room(s.room, |s.l.sleepers| + 1))
  }

  /** The loop of P, from its test on. */
  function TryP(s: Sys, x: nat): Sys
    requires s.l.cur.Thread? && x in s.sems
  {
    var sem := s.sems[x];
    if sem.count == 0 then SleepOn(s, OnSem(x), InP(x))
    else s.(sems := s.sems[x := sem.(count := sem.count - 1, ps := sem.ps + 1)], pc := s.pc[s.l.cur.tid := Idle])
  }

  function DoV(s: Sys, x: nat): Sys
    requires x in s.sems
  {
    var sem := s.sems[x];
    s.(sems := s.sems[x := sem.(count := sem.count + 1, vs := sem.vs + 1)], l := WakeAll(s.l, OnSem(x)))
  }

  /** The loop of lock_acquire, from its test on. */
  function TryAcquire(s: Sys, k: nat, pc: Pc): Sys
    requires s.l.cur.Thread? && k in s.locks && k in s.crit
  {
    if s.locks[k].held then SleepOn(s, OnLock(k), pc)
    else s.(locks := s.locks[k := Lock(true, s.l.cur)], crit := s.crit[k := s.crit[k] + {s.l.cur.tid}],
      pc := s.pc[s.l.cur.tid := Idle])
  }

  function DoRelease(s: Sys, k: nat): Sys
    requires s.l.cur.Thread? && k in s.locks && k in s.crit
  {
    s.(locks := s.locks[k := Lock(false, Nobody)], crit := s.crit[k := s.crit[k] - {s.l.cur.tid}],
      l := WakeAll(s.l, OnLock(k)))
  }

  /** thread_fork, when it succeeds: the new thread is runnable and every list has room for it. */
  function WithThread(s: Sys, t: Tid): Sys {
    s.(l := s.l.(runq := s.l.runq + [t], num := s.l.num + 1), pc := s.pc[t := Idle], room := Room(s.room, s.l.num + 1),
      forked := true)
  }

  function Step(s: Sys, a: Act): Sys
    requires Enabled(s, a) && Known(s)
  {
    match a
    case P(x) => TryP(s, x)
    case V(x) => DoV(s, x)
    case Interrupt(x) => DoV(s, x)
    case Acquire(k) => TryAcquire(s, k, InAcquire(k))
    case Release(k) => DoRelease(s, k)
    case Wait(c, k) => SleepOn(DoRelease(s, k), OnCv(c), InWait(c, k))
    case Signal(c) => s.(l := WakeOne(s.l, OnCv(c)))
    case Broadcast(c) => s.(l := WakeAll(s.l, OnCv(c)))
    case Yield => s.(l := Threads.Stash(s.l, Ready))
    case Fork(t) => WithThread(s, t)
    case Exit => s.(l := Threads.Stash(s.l, Zombie).(num := if s.l.num > 0 then s.l.num - 1 else 0))
    case Dispatch(isnew) => s.(l := Threads.Dispatch(s.l).(zombies := if isnew then s.l.zombies else []))
    case Resume =>
      match s.pc[s.l.cur.tid]
      case InP(x) => TryP(s, x)
      case InAcquire(k) => TryAcquire(s, k, InAcquire(k))
      case InWait(_, k) => TryAcquire(s, k, Rewait(k))
      case Rewait(k) => TryAcquire(s, k, Rewait(k))
      case Idle => s
  }

  // ---------------------------------------------------------------------------------------
  // The invariant

  /** What the program counters refer to exists. */
  predicate Known(s: Sys) {
    && s.locks.Keys == s.crit.Keys
    && (forall t :: t in s.pc && s.pc[t].InP? ==> s.pc[t].s in s.sems)
    && (forall t :: t in s.pc && (s.pc[t].InAcquire? || s.pc[t].InWait? || s.pc[t].Rewait?) ==> s.pc[t].l in s.locks)
  }

  /** Counts add up. */
  predicate SemsOk(s: Sys) {
    forall x :: x in s.sems ==> s.sems[x].count + s.sems[x].ps == s.sems[x].init + s.sems[x].vs
  }

  /** A lock is held by exactly the thread in its critical section. */
  predicate LocksOk(s: Sys) {
    s.locks.Keys == s.crit.Keys && forall k :: k in s.locks ==>
      (if s.locks[k].held then s.locks[k].pointer.Thread? && s.crit[k] == {s.locks[k].pointer.tid}
       else s.locks[k].pointer == Nobody && s.crit[k] == {})
  }

  /** A thread that slept on `a` could go on now. */
  predicate Open(s: Sys, a: Addr) {
    match a
    case OnSem(x) => x in s.sems && s.sems[x].count > 0
    case OnLock(k) => k in s.locks && !s.locks[k].held
    case OnCv(_) => false
  }

  predicate NobodyOn(l: Lists, a: Addr) {
    forall t :: t in l.sleepers ==> !SleepsOn(l.on, t, a)
  }

  /** Nobody sleeps where it could go on, the address `but` set apart. */
  ghost predicate NoLost(s: Sys, but: set<Addr>) {
    forall a :: a !in but && Open(s, a) ==> NobodyOn(s.l, a)
  }

  /** Where a sleeper sleeps is what it is in the middle of. */
  predicate PcFits(pc: Pc, a: Addr) {
    match a
    case OnSem(x) => pc == InP(x)
    case OnLock(k) => pc == InAcquire(k) || pc == Rewait(k)
    case OnCv(c) => pc.InWait? && pc.c == c
  }

  predicate PcsOk(s: Sys) {
    && (forall t :: t in Census(s.l) ==> t in s.pc)
    && (forall t :: t in s.l.sleepers ==> t in s.l.on && t in s.pc && PcFits(s.pc[t], s.l.on[t]))
  }

  /** Threads on their way to a lock are not inside it. */
  predicate OutsideOk(s: Sys) {
    forall t :: t in s.pc && (s.pc[t].InAcquire? || s.pc[t].InWait? || s.pc[t].Rewait?) && s.pc[t].l in s.crit ==>
      t !in s.crit[s.pc[t].l]
  }

  /** The sleepers are in the order they fell asleep. */
  predicate Ordered(s: Sys) {
    && (forall t :: t in s.l.sleepers ==> t in s.since && s.since[t] < s.clock)
    && (forall i, j :: 0 <= i < j < |s.l.sleepers| ==> s.since[s.l.sleepers[i]] < s.since[s.l.sleepers[j]])
  }

  predicate RoomOk(s: Sys) {
    s.forked ==> s.l.num <= s.room
  }

  ghost predicate InvBut(s: Sys, but: set<Addr>) {
    && Conserved(s.l) && Known(s) && SemsOk(s) && LocksOk(s) && NoLost(s, but) && PcsOk(s) && OutsideOk(s) && Ordered(s)
    && RoomOk(s)
  }

  ghost predicate Inv(s: Sys) {
    InvBut(s, {})
  }

  // ---------------------------------------------------------------------------------------
  // Waking

  predicate SortedBy(since: map<Tid, nat>, s: seq<Tid>) {
    && (forall t :: t in s ==> t in since)
    && (forall i, j :: 0 <= i < j < |s| ==> since[s[i]] < since[s[j]])
  }

  lemma SortedTail(since: map<Tid, nat>, s: seq<Tid>)
    requires SortedBy(since, s) && s != []
    ensures SortedBy(since, s[1..]) && s[0] in since && forall x :: x in s[1..] ==> x in since && since[s[0]] < since[x]
  {
  }

  lemma SortedCons(since: map<Tid, nat>, t: Tid, r: seq<Tid>)
    requires SortedBy(since, r) && t in since && forall x :: x in r ==> x in since && since[t] < since[x]
    ensures SortedBy(since, [t] + r)
  {
  }

  lemma {:induction false} StayingSorted(since: map<Tid, nat>, s: seq<Tid>, on: map<Tid, Addr>, a: Addr)
    requires SortedBy(since, s)
    ensures SortedBy(since, Staying(s, on, a))
  {
    hide SleepsOn, SortedBy;
    if s != [] {
      var r := Staying(s[1..], on, a);
      SortedTail(since, s);
      StayingSorted(since, s[1..], on, a);
      forall x | x in r ensures x in s[1..] {
        WhoWakes(s[1..], on, a, x);
      }
      SortedCons(since, s[0], r);
      assert Staying(s, on, a) == if SleepsOn(on, s[0], a) then r else [s[0]] + r;
    } else {
      assert Staying(s, on, a) == s;
    }
  }

  /** What fewer sleepers, still in order, leave true. */
  lemma FewerSleepers(s: Sys, l: Lists, but: set<Addr>)
    requires InvBut(s, but) && Conserved(l) && Census(l) == Census(s.l) && l.on == s.l.on && l.num == s.l.num
    requires forall t :: t in l.sleepers ==> t in s.l.sleepers
    requires SortedBy(s.since, l.sleepers)
    ensures InvBut(s.(l := l), but)
  {
    hide Census, Conserved, SleepsOn, PcFits;
    var s' := s.(l := l);
    forall a | a !in but && Open(s', a) ensures NobodyOn(l, a) {
      assert Open(s, a);
      assert NobodyOn(s.l, a);
    }
  }

  /** Waking everyone on an address keeps the invariant, and restores it for that address. */
  lemma WakeAllKeeps(s: Sys, a: Addr, but: set<Addr>)
    requires InvBut(s, but)
    ensures InvBut(s.(l := WakeAll(s.l, a)), but - {a}) && NobodyOn(WakeAll(s.l, a), a)
  {
    hide InvBut, Census, Conserved, Waking, Staying, SleepsOn;
    InvParts(s, but);
    var l := WakeAll(s.l, a);
    WakeAllConserves(s.l, a);
    StayingSorted(s.since, s.l.sleepers, s.l.on, a);
    forall t | t in l.sleepers ensures t in s.l.sleepers && !SleepsOn(l.on, t, a) {
      WhoWakes(s.l.sleepers, s.l.on, a, t);
    }
    FewerSleepers(s, l, but);
    OneLess(s.(l := l), a, but);
  }

  lemma InvParts(s: Sys, but: set<Addr>)
    requires InvBut(s, but)
    ensures Conserved(s.l) && SortedBy(s.since, s.l.sleepers) && Known(s) && PcsOk(s) && LocksOk(s)
  {
    hide Census, Conserved, SleepsOn, PcFits, NoLost;
  }

  lemma OneLess(s: Sys, a: Addr, but: set<Addr>)
    requires InvBut(s, but) && NobodyOn(s.l, a)
    ensures InvBut(s, but - {a})
  {
    hide Census, Conserved, SleepsOn, PcFits, NobodyOn;
  }

  lemma WithoutSorted(since: map<Tid, nat>, s: seq<Tid>, i: nat)
    requires SortedBy(since, s) && i < |s|
    ensures SortedBy(since, Without(s, i))
  {
    var r := Without(s, i);
    assert forall j :: 0 <= j < |r| ==> r[j] == if j < i then s[j] else s[j + 1];
  }

  lemma WakeOneKeeps(s: Sys, a: Addr)
    requires Inv(s)
    ensures Inv(s.(l := WakeOne(s.l, a)))
  {
    hide InvBut, Census, Conserved, SleepsOn, FirstOn;
    InvParts(s, {});
    WakeOneConserves(s.l, a);
    var i := FirstOn(s.l.sleepers, s.l.on, a);
    if i < |s.l.sleepers| {
      WithoutSorted(s.since, s.l.sleepers, i);
      FewerSleepers(s, WakeOne(s.l, a), {});
    }
  }

  // ---------------------------------------------------------------------------------------
  // Sleeping

  /** Falling asleep where one could not go on keeps the invariant. */
  lemma SleepKeeps(s: Sys, a: Addr, pc: Pc)
    requires Inv(s) && s.l.cur.Thread? && !Open(s, a) && PcFits(pc, a)
    requires pc.InP? ==> pc.s in s.sems
    requires pc.InAcquire? || pc.InWait? || pc.Rewait? ==>
               pc.l in s.locks && pc.l in s.crit && s.l.cur.tid !in s.crit[pc.l]
    ensures Inv(SleepOn(s, a, pc))
  {
    hide Census, Conserved, PcFits, SleepsOn, PcsOk, Ordered, NoLost;
    StashConserves(s.l, Asleep(a));
    assert Conserved(SleepOn(s, a, pc).l);
    SleepNoLost(s, a, pc);
    SleepPcs(s, a, pc);
    SleepOrdered(s, a, pc);
  }

  /** The current thread is in no list. */
  lemma CurrentIsApart(l: Lists)
    requires Conserved(l) && l.cur.Thread?
    ensures l.cur.tid !in l.sleepers && l.cur.tid !in l.runq && l.cur.tid !in l.zombies && l.cur.tid in Census(l)
    ensures |l.runq| + |l.sleepers| + 1 == l.num
  {
    assert l.cur.tid in Census(l);
  }

  lemma SleepNoLost(s: Sys, a: Addr, pc: Pc)
    requires Inv(s) && s.l.cur.Thread? && !Open(s, a)
    ensures NoLost(SleepOn(s, a, pc), {})
  {
    hide Census, Conserved, PcFits, PcsOk, Ordered;
    CurrentIsApart(s.l);
    var s' := SleepOn(s, a, pc);
    forall b | Open(s', b) ensures NobodyOn(s'.l, b) {
      assert Open(s, b);
      assert NobodyOn(s.l, b);
    }
  }

  lemma SleepPcs(s: Sys, a: Addr, pc: Pc)
    requires Inv(s) && s.l.cur.Thread? && PcFits(pc, a)
    ensures PcsOk(SleepOn(s, a, pc))
  {
    hide Census, Conserved, PcFits, SleepsOn, NoLost, Ordered;
    CurrentIsApart(s.l);
    StashConserves(s.l, Asleep(a));
  }

  lemma SleepOrdered(s: Sys, a: Addr, pc: Pc)
    requires Inv(s) && s.l.cur.Thread?
    ensures Ordered(SleepOn(s, a, pc))
  {
    hide Census, Conserved, PcFits, SleepsOn, NoLost, PcsOk;
    CurrentIsApart(s.l);
    var s' := SleepOn(s, a, pc);
    forall i, j | 0 <= i < j < |s'.l.sleepers| ensures s'.since[s'.l.sleepers[i]] < s'.since[s'.l.sleepers[j]] {
      assert s'.l.sleepers[i] == s.l.sleepers[i];
    }
  }

  // ---------------------------------------------------------------------------------------
  // Every step keeps the invariant

  lemma TryPKeeps(s: Sys, x: nat)
    requires Inv(s) && s.l.cur.Thread? && x in s.sems
    ensures Inv(TryP(s, x))
  {
    hide Census, Conserved, SleepsOn, NobodyOn;
    if s.sems[x].count == 0 {
      SleepKeeps(s, OnSem(x), InP(x));
    } else {
      var s' := TryP(s, x);
      forall a | Open(s', a) ensures NobodyOn(s'.l, a) {
        assert Open(s, a);
      }
      CurrentIsApart(s.l);
    }
  }

  lemma VKeeps(s: Sys, x: nat)
    requires Inv(s) && x in s.sems
    ensures Inv(DoV(s, x))
  {
    hide Census, Conserved, SleepsOn, NobodyOn, WakeAll;
    var sem := s.sems[x];
    var s1 := s.(sems := s.sems[x := sem.(count := sem.count + 1, vs := sem.vs + 1)]);
    forall a | a != OnSem(x) && Open(s1, a) ensures NobodyOn(s1.l, a) {
      assert Open(s, a);
    }
    WakeAllKeeps(s1, OnSem(x), {OnSem(x)});
  }

  lemma AcquireKeeps(s: Sys, k: nat, pc: Pc)
    requires Inv(s) && s.l.cur.Thread? && k in s.locks && k in s.crit && s.l.cur.tid !in s.crit[k]
    requires pc == InAcquire(k) || pc == Rewait(k)
    ensures Inv(TryAcquire(s, k, pc))
  {
    hide InvBut, SleepOn;
    if s.locks[k].held {
      SleepKeeps(s, OnLock(k), pc);
    } else {
      TakeKeeps(s, k);
    }
  }

  /** A free lock, taken by the current thread. */
  function Taken(s: Sys, k: nat): Sys
    requires s.l.cur.Thread? && k in s.crit
  {
    s.(locks := s.locks[k := Lock(true, s.l.cur)], crit := s.crit[k := s.crit[k] + {s.l.cur.tid}],
      pc := s.pc[s.l.cur.tid := Idle])
  }

  lemma TakeKeeps(s: Sys, k: nat)
    requires Inv(s) && s.l.cur.Thread? && k in s.locks && k in s.crit && !s.locks[k].held
    ensures Inv(Taken(s, k))
  {
    hide Census, Conserved, SleepsOn, NobodyOn, LocksOk, OutsideOk, PcsOk, NoLost;
    TakeLocks(s, k);
    TakePcs(s, k);
    TakeNoLost(s, k);
  }

  lemma TakeLocks(s: Sys, k: nat)
    requires LocksOk(s) && OutsideOk(s) && s.l.cur.Thread? && k in s.locks && k in s.crit && !s.locks[k].held
    ensures LocksOk(Taken(s, k)) && OutsideOk(Taken(s, k))
  {
    assert s.crit[k] == {};
    assert Taken(s, k).locks.Keys == s.locks.Keys;
  }

  lemma TakePcs(s: Sys, k: nat)
    requires PcsOk(s) && Conserved(s.l) && s.l.cur.Thread? && k in s.crit
    ensures PcsOk(Taken(s, k))
  {
    hide Census, Conserved, PcFits;
    CurrentIsApart(s.l);
  }

  lemma TakeNoLost(s: Sys, k: nat)
    requires NoLost(s, {}) && s.l.cur.Thread? && k in s.crit && k in s.locks
    ensures NoLost(Taken(s, k), {})
  {
    hide NobodyOn;
    forall a | Open(Taken(s, k), a) ensures NobodyOn(s.l, a) {
      assert Open(s, a);
    }
  }

  lemma ReleaseKeeps(s: Sys, k: nat)
    requires Inv(s) && s.l.cur.Thread? && k in s.locks && k in s.crit && s.l.cur.tid in s.crit[k]
    ensures Inv(DoRelease(s, k)) && DoRelease(s, k).crit[k] == {}
  {
    hide Census, Conserved, SleepsOn, NobodyOn, WakeAll;
    var s1 := s.(locks := s.locks[k := Lock(false, Nobody)], crit := s.crit[k := s.crit[k] - {s.l.cur.tid}]);
    forall a | a != OnLock(k) && Open(s1, a) ensures NobodyOn(s1.l, a) {
      assert Open(s, a);
    }
    WakeAllKeeps(s1, OnLock(k), {OnLock(k)});
  }

  lemma WaitKeeps(s: Sys, c: nat, k: nat)
    requires Inv(s) && s.l.cur.Thread? && k in s.locks && k in s.crit && s.l.cur.tid in s.crit[k]
    ensures Inv(SleepOn(DoRelease(s, k), OnCv(c), InWait(c, k)))
  {
    hide InvBut, Waking, Staying;
    ReleaseKeeps(s, k);
    SleepKeeps(DoRelease(s, k), OnCv(c), InWait(c, k));
  }

  /** Moves that touch no sleeper and no program counter. */
  lemma SameSleepers(s: Sys, l: Lists)
    requires Inv(s) && Conserved(l) && l.sleepers == s.l.sleepers && l.on == s.l.on && l.num <= s.l.num
    requires forall t :: t in Census(l) ==> t in Census(s.l)
    ensures Inv(s.(l := l))
  {
    hide Census, Conserved, SleepsOn, PcFits;
    var s' := s.(l := l);
    forall a | Open(s', a) ensures NobodyOn(l, a) {
      assert Open(s, a);
      assert NobodyOn(s.l, a);
    }
  }

  lemma LeaveKeeps(s: Sys, next: NextState)
    requires Inv(s) && s.l.cur.Thread? && !next.Asleep?
    ensures Inv(s.(l := Threads.Stash(s.l, next).(num := if next.Zombie? then s.l.num - 1 else s.l.num)))
  {
    hide Census, Conserved, SleepsOn, PcFits;
    CurrentIsApart(s.l);
    StashConserves(s.l, next);
    var l := Threads.Stash(s.l, next).(num := if next.Zombie? then s.l.num - 1 else s.l.num);
    CensusSame(l, Threads.Stash(s.l, next));
    SameSleepers(s, l);
  }

  lemma CensusSame(l: Lists, m: Lists)
    requires l.cur == m.cur && l.runq == m.runq && l.sleepers == m.sleepers && l.zombies == m.zombies
    ensures Census(l) == Census(m)
  {
  }

  lemma DispatchKeeps(s: Sys, isnew: bool)
    requires Inv(s) && s.l.cur.Nobody? && s.l.runq != []
    ensures Inv(s.(l := Threads.Dispatch(s.l).(zombies := if isnew then s.l.zombies else [])))
  {
    hide SleepsOn, PcFits, InvBut;
    InvParts(s, {});
    DispatchConserves(s.l);
    var d := Threads.Dispatch(s.l);
    var l := d.(zombies := if isnew then s.l.zombies else []);
    Reaped(d, l.zombies);
    SameSleepers(s, l);
  }

  lemma Reaped(l: Lists, zombies: seq<Tid>)
    requires Conserved(l) && (zombies == l.zombies || zombies == [])
    ensures Conserved(l.(zombies := zombies)) && forall t :: t in Census(l.(zombies := zombies)) ==> t in Census(l)
  {
    var m := l.(zombies := zombies);
    forall t | t in Census(m) ensures t in Census(l) && Census(m)[t] == 1 {
      assert Census(m)[t] <= Census(l)[t];
    }
  }

  lemma ForkKeeps(s: Sys, t: Tid)
    requires Inv(s) && t !in Census(s.l) && t !in s.pc
    ensures Inv(WithThread(s, t))
  {
    hide SleepsOn, Census, Conserved, PcsOk, NoLost, NobodyOn;
    Forked(s.l, t);
    ForkPcs(s, t);
    ForkNoLost(s, t);
  }

  lemma ForkPcs(s: Sys, t: Tid)
    requires PcsOk(s) && Conserved(s.l) && t !in Census(s.l) && t !in s.pc
    ensures PcsOk(WithThread(s, t))
  {
    hide PcFits, Census, Conserved;
    Forked(s.l, t);
    forall x | x in s.l.sleepers ensures x != t {
      assert x in s.pc;
    }
  }

  lemma ForkNoLost(s: Sys, t: Tid)
    requires NoLost(s, {})
    ensures NoLost(WithThread(s, t), {})
  {
    var s' := WithThread(s, t);
    forall a | Open(s', a) ensures NobodyOn(s'.l, a) {
      assert Open(s, a);
      assert NobodyOn(s.l, a);
    }
  }

  lemma Forked(l: Lists, t: Tid)
    requires Conserved(l) && t !in Census(l)
    ensures Conserved(l.(runq := l.runq + [t], num := l.num + 1))
    ensures Census(l.(runq := l.runq + [t], num := l.num + 1)) == Census(l) + multiset{t}
  {
    var m := l.(runq := l.runq + [t], num := l.num + 1);
    assert Census(m) == Census(l) + multiset{t};
    forall x | x in Census(m) ensures Census(m)[x] == 1 {
      assert Census(m)[x] == Census(l)[x] + multiset{t}[x];
    }
  }

  /** Every step of every thread, and every interrupt, keeps the invariant. */
  lemma StepKeeps(s: Sys, a: Act)
    requires Inv(s) && Enabled(s, a) && Known(s)
    ensures Inv(Step(s, a))
  {
    hide InvBut, Conserved, Census, WakeAll, WakeOne, SleepOn, TryP, DoV, TryAcquire, DoRelease;
    InvParts(s, {});
    match a {
      case P(x) => TryPKeeps(s, x);
      case V(x) => VKeeps(s, x);
      case Interrupt(x) => VKeeps(s, x);
      case Acquire(k) =>
        NotInside(s, k);
        AcquireKeeps(s, k, InAcquire(k));
      case Release(k) => ReleaseKeeps(s, k);
      case Wait(c, k) => WaitKeeps(s, c, k);
      case Signal(c) => WakeOneKeeps(s, OnCv(c));
      case Broadcast(c) =>
        WakeAllKeeps(s, OnCv(c), {});
        assert {} - {OnCv(c)} == {};
      case Yield => LeaveKeeps(s, Ready);
      case Fork(t) => ForkKeeps(s, t);
      case Exit =>
        CurrentIsApart(s.l);
        LeaveKeeps(s, Zombie);
      case Dispatch(isnew) => DispatchKeeps(s, isnew);
      case Resume => ResumeKeeps(s);
    }
  }

  lemma NotInside(s: Sys, k: nat)
    requires LocksOk(s) && s.l.cur.Thread? && k in s.locks && s.locks[k].pointer != s.l.cur
    ensures k in s.crit && s.l.cur.tid !in s.crit[k]
  {
  }

  lemma ResumeKeeps(s: Sys)
    requires Inv(s) && Enabled(s, Resume) && Known(s)
    ensures Inv(Step(s, Resume))
  {
    hide Conserved, Census, SleepOn, TryP, TryAcquire, NoLost, PcsOk;
    match s.pc[s.l.cur.tid] {
      case InP(x) => TryPKeeps(s, x);
      case InAcquire(k) => AcquireKeeps(s, k, InAcquire(k));
      case InWait(_, k) => AcquireKeeps(s, k, Rewait(k));
      case Rewait(k) => AcquireKeeps(s, k, Rewait(k));
    }
  }
}
