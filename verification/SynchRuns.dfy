/**
 What the synchronization primitives guarantee over whole runs.
 */
module SynchRuns {
  import opened PtrArrays
  import opened Threads
  import opened Synch

  /** The system just after boot: one thread, semaphores at their initial counts, locks free. */
  predicate Init(s: Sys) {
    && s.l.cur.Thread? && s.l == Lists(s.l.cur, [], [], map[], [], 1) && s.pc == map[s.l.cur.tid := Idle]
    && (forall x :: x in s.sems ==> s.sems[x].count == s.sems[x].init && s.sems[x].vs == 0 && s.sems[x].ps == 0)
    && s.locks.Keys == s.crit.Keys
    && (forall k :: k in s.locks ==> s.locks[k] == Lock(false, Nobody) && s.crit[k] == {})
    && !s.forked
  }

  lemma InitInv(s: Sys)
    requires Init(s)
    ensures Inv(s)
  {
    assert Census(s.l) == multiset{s.l.cur.tid};
  }

  /** The steps can be taken one after the other. */
  ghost predicate IsRun(s: Sys, acts: seq<Act>)
    decreases |acts|
  {
    acts == [] || (Known(s) && Enabled(s, acts[0]) && IsRun(Step(s, acts[0]), acts[1..]))
  }

  ghost function After(s: Sys, acts: seq<Act>): Sys
    requires IsRun(s, acts)
    decreases |acts|
  {
    if acts == [] then s else After(Step(s, acts[0]), acts[1..])
  }

  lemma {:induction false} RunInv(s: Sys, acts: seq<Act>)
    requires Inv(s) && IsRun(s, acts)
    ensures Inv(After(s, acts))
    decreases |acts|
  {
    hide Inv, Step, Enabled, Known;
    if acts != [] {
      StepKeeps(s, acts[0]);
      RunInv(Step(s, acts[0]), acts[1..]);
    }
  }

  lemma Reachable(s: Sys, acts: seq<Act>)
    requires Init(s) && IsRun(s, acts)
    ensures Inv(After(s, acts))
  {
    hide Init, Inv, IsRun, After;
    InitInv(s);
    RunInv(s, acts);
  }

  // ---------------------------------------------------------------------------------------
  // Semaphores

  /** A V of semaphore `x`, by a thread or an interrupt. */
  predicate Raises(a: Act, x: nat) {
    a == V(x) || a == Interrupt(x)
  }

  /** A P of `x` that gets through in this step. */
  predicate Lowers(s: Sys, a: Act, x: nat)
    requires Known(s) && Enabled(s, a)
  {
    && x in s.sems && s.sems[x].count > 0
    && (a == P(x) || (a == Resume && s.pc[s.l.cur.tid] == InP(x)))
  }

  ghost function CountVs(acts: seq<Act>, x: nat): nat {
    if acts == [] then 0 else (if Raises(acts[0], x) then 1 else 0) + CountVs(acts[1..], x)
  }

  ghost function CountPs(s: Sys, acts: seq<Act>, x: nat): nat
    requires IsRun(s, acts)
    decreases |acts|
  {
    if acts == [] then 0 else (if Lowers(s, acts[0], x) then 1 else 0) + CountPs(Step(s, acts[0]), acts[1..], x)
  }

  /** What one step does to a semaphore. */
  function SemNext(s: Sys, a: Act, x: nat): Sem
    requires Known(s) && Enabled(s, a) && x in s.sems
  {
    var m := s.sems[x];
    if Raises(a, x) then m.(count := m.count + 1, vs := m.vs + 1)
    else if Lowers(s, a, x) then m.(count := m.count - 1, ps := m.ps + 1)
    else m
  }

  lemma SemStep(s: Sys, a: Act, x: nat)
    requires Known(s) && Enabled(s, a) && x in s.sems
    ensures x in Step(s, a).sems && Step(s, a).sems[x] == SemNext(s, a, x)
  {
    hide Known, WakeAll, WakeOne, Stash, SleepOn, TryP, TryAcquire, DoRelease;
    KnownKeys(s);
    match a {
      case P(y) => SemOfP(s, y, x);
      case Acquire(k) => SemOfLock(s, k, InAcquire(k));
      case Release(k) => SemOfLock(s, k, Idle);
      case Wait(c, k) =>
        SemOfLock(s, k, Idle);
        SemOfSleep(DoRelease(s, k), OnCv(c), InWait(c, k));
      case Resume => SemOfResume(s, x);
      case _ =>
    }
  }

  lemma KnownKeys(s: Sys)
    requires Known(s)
    ensures s.locks.Keys == s.crit.Keys
  {
  }

  lemma SemOfP(s: Sys, y: nat, x: nat)
    requires s.l.cur.Thread? && y in s.sems && x in s.sems
    ensures x in TryP(s, y).sems
    ensures TryP(s, y).sems[x] ==
              if x == y && s.sems[x].count > 0 then s.sems[x].(count := s.sems[x].count - 1, ps := s.sems[x].ps + 1)
                else s.sems[x]
  {
  }

  lemma SemOfSleep(s: Sys, a: Addr, pc: Pc)
    requires s.l.cur.Thread?
    ensures SleepOn(s, a, pc).sems == s.sems
  {
  }

  lemma SemOfLock(s: Sys, k: nat, pc: Pc)
    requires s.l.cur.Thread? && k in s.locks && k in s.crit
    ensures TryAcquire(s, k, pc).sems == s.sems && DoRelease(s, k).sems == s.sems && DoRelease(s, k).l.cur == s.l.cur
  {
  }

  lemma SemOfResume(s: Sys, x: nat)
    requires Known(s) && Enabled(s, Resume) && x in s.sems
    ensures x in Step(s, Resume).sems
    ensures Step(s, Resume).sems[x] ==
              if Lowers(s, Resume, x) then s.sems[x].(count := s.sems[x].count - 1, ps := s.sems[x].ps + 1)
                else s.sems[x]
  {
    hide SleepOn, TryP, TryAcquire;
    match s.pc[s.l.cur.tid] {
      case InP(y) => SemOfP(s, y, x);
      case InAcquire(k) => SemOfLock(s, k, InAcquire(k));
      case InWait(_, k) => SemOfLock(s, k, Rewait(k));
      case Rewait(k) => SemOfLock(s, k, Rewait(k));
    }
  }

  lemma {:induction false} SemRun(s: Sys, acts: seq<Act>, x: nat)
    requires IsRun(s, acts) && x in s.sems
    ensures x in After(s, acts).sems
    ensures After(s, acts).sems[x].vs == s.sems[x].vs + CountVs(acts, x)
    ensures After(s, acts).sems[x].ps == s.sems[x].ps + CountPs(s, acts, x)
    ensures After(s, acts).sems[x].init == s.sems[x].init
    decreases |acts|
  {
    hide Step, Enabled, Known;
    if acts != [] {
      SemStep(s, acts[0], x);
      SemRun(Step(s, acts[0]), acts[1..], x);
    }
  }

  /** A semaphore's count is its initial value plus the Vs minus the Ps that got through, and so never negative. */
  lemma SemaphoreCounts(s: Sys, acts: seq<Act>, x: nat)
    requires Init(s) && IsRun(s, acts) && x in s.sems
    ensures x in After(s, acts).sems
    ensures After(s, acts).sems[x].count == s.sems[x].count + CountVs(acts, x) - CountPs(s, acts, x)
  {
    hide IsRun, After, Step;
    Reachable(s, acts);
    SemRun(s, acts, x);
  }

  /** No wakeup is lost: nobody sleeps on a semaphore above zero or on a free lock. */
  lemma NoLostWakeup(s: Sys, acts: seq<Act>, t: Tid)
    requires Init(s) && IsRun(s, acts) && t in After(s, acts).l.sleepers
    ensures var f := After(s, acts);
            && (forall x :: x in f.sems && SleepsOn(f.l.on, t, OnSem(x)) ==> f.sems[x].count == 0)
            && (forall k :: k in f.locks && SleepsOn(f.l.on, t, OnLock(k)) ==> f.locks[k].held)
  {
    hide IsRun, After, Step, Census, Conserved, PcsOk;
    Reachable(s, acts);
    var f := After(s, acts);
    forall x | x in f.sems && SleepsOn(f.l.on, t, OnSem(x)) ensures f.sems[x].count == 0 {
      assert Open(f, OnSem(x)) ==> NobodyOn(f.l, OnSem(x));
    }
    forall k | k in f.locks && SleepsOn(f.l.on, t, OnLock(k)) ensures f.locks[k].held {
      assert Open(f, OnLock(k)) ==> NobodyOn(f.l, OnLock(k));
    }
  }

  predicate AsleepOn(s: Sys, t: Tid, a: Addr) {
    t in s.l.sleepers && SleepsOn(s.l.on, t, a)
  }

  /** Thread `t` has called P on semaphore `x` and not come back. */
  predicate DoesP(s: Sys, t: Tid, x: nat) {
    t in s.pc && s.pc[t] == InP(x)
  }

  /** From `s` to `n` thread `t` comes back from P: the count was above zero and is one lower. */
  predicate CameThrough(s: Sys, n: Sys, t: Tid, x: nat) {
    && n.l.cur == Thread(t) && t in n.pc && n.pc[t] == Idle
    && x in s.sems && s.sems[x].count > 0 && x in n.sems && n.sems[x].count == s.sems[x].count - 1
  }

  /** A P comes back at once exactly if the count is above zero; otherwise the thread sleeps, and the count stays 0. */
  lemma PWaits(s: Sys, x: nat)
    requires Known(s) && Enabled(s, P(x))
    ensures var n, t := Step(s, P(x)), s.l.cur.tid;
            if s.sems[x].count > 0 then CameThrough(s, n, t, x) && n.l == s.l
            else DoesP(n, t, x) && AsleepOn(n, t, OnSem(x)) && n.l.cur == Nobody && n.sems == s.sems
  {
  }

  /** The Ps counted are those that come back: of a P begun or resumed, exactly the one that lowers the count. */
  lemma LowersIsReturn(s: Sys, a: Act, x: nat)
    requires Known(s) && Enabled(s, a) && (a == P(x) || (a == Resume && s.pc[s.l.cur.tid] == InP(x)))
    ensures var n, t := Step(s, a), s.l.cur.tid;
            && t in n.pc && (n.pc[t] == Idle <==> Lowers(s, a, x)) && (n.pc[t] == Idle <==> n.l.cur == Thread(t))
  {
    hide Room;
  }

  /** Whatever step is taken, the P goes on, or its own thread comes through. */
  lemma PGoesOn(s: Sys, a: Act, t: Tid, x: nat)
    requires Known(s) && Enabled(s, a) && DoesP(s, t, x)
    ensures DoesP(Step(s, a), t, x) || (a == Resume && CameThrough(s, Step(s, a), t, x))
  {
    hide Step, Enabled, Known;
    if a != Resume {
      NotItsStep(s, a, t);
    } else if s.l.cur != Thread(t) {
      OtherResume(s, t);
    } else {
      ResumedP(s, t, x);
    }
  }

  lemma ResumedP(s: Sys, t: Tid, x: nat)
    requires Known(s) && Enabled(s, Resume) && DoesP(s, t, x) && s.l.cur == Thread(t)
    ensures DoesP(Step(s, Resume), t, x) || CameThrough(s, Step(s, Resume), t, x)
  {
    hide Room;
  }

  /** Over every run: a P that is over ended at a step of its own thread that lowered the count. */
  lemma {:induction false} PReturnsLowered(s: Sys, acts: seq<Act>, t: Tid, x: nat) returns (i: nat)
    requires IsRun(s, acts) && DoesP(s, t, x) && !DoesP(After(s, acts), t, x)
    ensures i < |acts| && acts[i] == Resume && IsRun(s, acts[..i]) && IsRun(s, acts[..i + 1])
    ensures DoesP(After(s, acts[..i]), t, x) && CameThrough(After(s, acts[..i]), After(s, acts[..i + 1]), t, x)
    decreases |acts|
  {
    hide Step, Enabled, Known, DoesP, CameThrough;
    PGoesOn(s, acts[0], t, x);
    if DoesP(Step(s, acts[0]), t, x) {
      var j := PReturnsLowered(Step(s, acts[0]), acts[1..], t, x);
      i := j + 1;
      assert acts[..i][1..] == acts[1..][..j] && acts[..i + 1][1..] == acts[1..][..j + 1];
    } else {
      i := 0;
      assert acts[..1] == [acts[0]] && acts[..1][1..] == [] && acts[..0] == [];
    }
  }

  /** A V, by a thread or an interrupt, raises the count, and everyone asleep on the semaphore is ready to run. */
  lemma VWakes(s: Sys, a: Act, x: nat, t: Tid)
    requires Known(s) && Enabled(s, a) && Raises(a, x)
    ensures var n := Step(s, a);
            && x in n.sems && n.sems[x].count == s.sems[x].count + 1 && n.l.cur == s.l.cur && NobodyOn(n.l, OnSem(x))
            && (AsleepOn(s, t, OnSem(x)) ==> t in n.l.runq)
            && (t in s.l.sleepers && !AsleepOn(s, t, OnSem(x)) ==> t in n.l.sleepers && n.l.on == s.l.on)
  {
    hide Waking, Staying, Known;
    WhoWakes(s.l.sleepers, s.l.on, OnSem(x), t);
    forall u | u in Staying(s.l.sleepers, s.l.on, OnSem(x)) ensures !SleepsOn(s.l.on, u, OnSem(x)) {
      WhoWakes(s.l.sleepers, s.l.on, OnSem(x), u);
    }
  }

  // ---------------------------------------------------------------------------------------
  // Locks and condition variables

  /** Thread `t` has called lock_acquire on `k` and not come back. */
  predicate DoesAcquire(s: Sys, t: Tid, k: nat) {
    t in s.pc && s.pc[t] == InAcquire(k)
  }

  /** lock_acquire comes back at once exactly if the lock is free; otherwise the thread sleeps, and the lock stays. */
  lemma AcquireWaits(s: Sys, k: nat)
    requires Inv(s) && Known(s) && Enabled(s, Acquire(k))
    ensures var n, t := Step(s, Acquire(k)), s.l.cur.tid;
            if !s.locks[k].held then Returned(n, t, k) && n.l == s.l
            else
              && DoesAcquire(n, t, k) && AsleepOn(n, t, OnLock(k)) && n.l.cur == Nobody
              && n.locks == s.locks && n.crit == s.crit
  {
    hide Census, Conserved, PcsOk, NoLost, Ordered, Room;
  }

  /** Whatever step is taken, the acquire goes on, or its own thread comes back with the lock. */
  lemma AcquireGoesOn(s: Sys, a: Act, t: Tid, k: nat)
    requires Inv(s) && Known(s) && Enabled(s, a) && DoesAcquire(s, t, k)
    ensures DoesAcquire(Step(s, a), t, k) || (a == Resume && Returned(Step(s, a), t, k))
  {
    hide Inv, Step, Enabled, Known;
    if a != Resume {
      NotItsStep(s, a, t);
    } else if s.l.cur != Thread(t) {
      OtherResume(s, t);
    } else {
      ResumedAcquire(s, t, k);
    }
  }

  lemma ResumedAcquire(s: Sys, t: Tid, k: nat)
    requires Inv(s) && Known(s) && Enabled(s, Resume) && DoesAcquire(s, t, k) && s.l.cur == Thread(t)
    ensures DoesAcquire(Step(s, Resume), t, k) || Returned(Step(s, Resume), t, k)
  {
    hide Census, Conserved, PcsOk, NoLost, Ordered, Room;
  }

  /**
   Over every run: a lock_acquire that is over ended at a step of its own thread, which then had the lock to itself.
   */
  lemma {:induction false} AcquireReturnsHolding(s: Sys, acts: seq<Act>, t: Tid, k: nat) returns (i: nat)
    requires Inv(s) && IsRun(s, acts) && DoesAcquire(s, t, k) && !DoesAcquire(After(s, acts), t, k)
    ensures i < |acts| && acts[i] == Resume && IsRun(s, acts[..i]) && IsRun(s, acts[..i + 1])
    ensures DoesAcquire(After(s, acts[..i]), t, k) && Returned(After(s, acts[..i + 1]), t, k)
    decreases |acts|
  {
    hide Inv, Step, Enabled, Known, DoesAcquire, Returned;
    AcquireGoesOn(s, acts[0], t, k);
    StepKeeps(s, acts[0]);
    if DoesAcquire(Step(s, acts[0]), t, k) {
      var j := AcquireReturnsHolding(Step(s, acts[0]), acts[1..], t, k);
      i := j + 1;
      assert acts[..i][1..] == acts[1..][..j] && acts[..i + 1][1..] == acts[1..][..j + 1];
    } else {
      i := 0;
      assert acts[..1] == [acts[0]] && acts[..1][1..] == [] && acts[..0] == [];
    }
  }

  /** A step lets go of a lock: a release, or a wait that releases it. */
  predicate LetsGo(a: Act, k: nat) {
    a == Release(k) || (a.Wait? && a.k == k)
  }

  lemma HeldInside(s: Sys, t: Tid, k: nat)
    requires Inv(s) && k in s.crit && s.crit[k] == {t}
    ensures s.locks.Keys == s.crit.Keys && k in s.locks && s.locks[k].held
  {
    hide Census, Conserved, PcsOk, NoLost, Ordered, OutsideOk, SemsOk;
    assert t in s.crit[k];
  }

  lemma CritOfP(s: Sys, x: nat)
    requires s.l.cur.Thread? && x in s.sems
    ensures TryP(s, x).crit == s.crit
  {
    hide Room;
  }

  lemma CritOfAcquire(s: Sys, l: nat, pc: Pc, k: nat)
    requires s.l.cur.Thread? && l in s.locks && l in s.crit && k in s.crit && k in s.locks && s.locks[k].held
    ensures k in TryAcquire(s, l, pc).crit && TryAcquire(s, l, pc).crit[k] == s.crit[k]
  {
    hide Room;
  }

  lemma CritOfResume(s: Sys, k: nat)
    requires Known(s) && Enabled(s, Resume) && k in s.crit && k in s.locks && s.locks[k].held
    ensures k in Step(s, Resume).crit && Step(s, Resume).crit[k] == s.crit[k]
  {
    hide TryP, TryAcquire;
    match s.pc[s.l.cur.tid] {
      case InP(x) => CritOfP(s, x);
      case InAcquire(l) => CritOfAcquire(s, l, InAcquire(l), k);
      case InWait(_, l) => CritOfAcquire(s, l, Rewait(l), k);
      case Rewait(l) => CritOfAcquire(s, l, Rewait(l), k);
    }
  }

  lemma KeepsLock(s: Sys, a: Act, t: Tid, k: nat)
    requires Inv(s) && Known(s) && Enabled(s, a) && k in s.crit && s.crit[k] == {t} && !LetsGo(a, k)
    ensures k in Step(s, a).crit && Step(s, a).crit[k] == {t}
  {
    hide Inv, Known, TryP, TryAcquire, WakeAll, WakeOne, Census, Room, Threads.Stash;
    HeldInside(s, t, k);
    match a {
      case P(x) => CritOfP(s, x);
      case Acquire(l) => CritOfAcquire(s, l, InAcquire(l), k);
      case Resume => CritOfResume(s, k);
      case _ =>
    }
  }

  /** From its acquire to its release a thread has the lock to itself: meanwhile no other comes back with it. */
  lemma {:induction false} AloneUntilRelease(s: Sys, acts: seq<Act>, t: Tid, k: nat, u: Tid)
    requires Inv(s) && IsRun(s, acts) && Returned(s, t, k) && u != t
    requires forall i :: 0 <= i < |acts| ==> !LetsGo(acts[i], k)
    ensures var f := After(s, acts); k in f.crit && f.crit[k] == {t} && !Returned(f, u, k)
  {
    hide Inv, Step, Enabled, Known, After, IsRun;
    StaysInside(s, acts, t, k);
  }

  lemma {:induction false} StaysInside(s: Sys, acts: seq<Act>, t: Tid, k: nat)
    requires Inv(s) && IsRun(s, acts) && k in s.crit && s.crit[k] == {t}
    requires forall i :: 0 <= i < |acts| ==> !LetsGo(acts[i], k)
    ensures k in After(s, acts).crit && After(s, acts).crit[k] == {t}
    decreases |acts|
  {
    hide Inv, Step, Enabled, Known, LetsGo;
    if acts != [] {
      StepKeeps(s, acts[0]);
      KeepsLock(s, acts[0], t, k);
      StaysInside(Step(s, acts[0]), acts[1..], t, k);
    }
  }

  /** lock_release leaves the lock free, nobody inside it, and everyone asleep on it ready to run. */
  lemma ReleaseFrees(s: Sys, k: nat, t: Tid)
    requires Inv(s) && Known(s) && Enabled(s, Release(k))
    ensures var n := Step(s, Release(k));
            && k in n.locks && n.locks[k] == Lock(false, Nobody) && k in n.crit && n.crit[k] == {}
            && n.l.cur == s.l.cur && n.pc == s.pc && NobodyOn(n.l, OnLock(k))
            && (AsleepOn(s, t, OnLock(k)) ==> t in n.l.runq)
  {
    hide Waking, Staying, Census, Conserved, PcsOk, NoLost, Ordered;
    WhoWakes(s.l.sleepers, s.l.on, OnLock(k), t);
    forall u | u in Staying(s.l.sleepers, s.l.on, OnLock(k)) ensures !SleepsOn(s.l.on, u, OnLock(k)) {
      WhoWakes(s.l.sleepers, s.l.on, OnLock(k), u);
    }
  }

  /** At most one thread is between acquiring and releasing a lock. */
  lemma MutualExclusion(s: Sys, acts: seq<Act>, k: nat, t: Tid, u: Tid)
    requires Init(s) && IsRun(s, acts)
    requires var f := After(s, acts); k in f.crit && t in f.crit[k] && u in f.crit[k]
    ensures t == u && k in After(s, acts).locks && After(s, acts).locks[k] == Lock(true, Thread(t))
  {
    hide IsRun, After, Step, Census, Conserved, PcsOk, NoLost;
    Reachable(s, acts);
  }

  /** Thread `t` is in a wait that is to end with lock `k` in its hands. */
  predicate WaitsFor(s: Sys, t: Tid, k: nat) {
    t in s.pc && (s.pc[t].InWait? || s.pc[t].Rewait?) && s.pc[t].l == k
  }

  /** Its wait is over: it runs, and nobody else is inside the lock. */
  predicate Returned(s: Sys, t: Tid, k: nat) {
    && s.l.cur == Thread(t) && t in s.pc && s.pc[t] == Idle
    && k in s.crit && s.crit[k] == {t} && k in s.locks && s.locks[k] == Lock(true, Thread(t))
  }

  /** Whatever step is taken, the wait goes on, or its own thread ends it with the lock. */
  lemma WaitGoesOn(s: Sys, a: Act, t: Tid, k: nat)
    requires Inv(s) && Known(s) && Enabled(s, a) && WaitsFor(s, t, k)
    ensures WaitsFor(Step(s, a), t, k) || (a == Resume && Returned(Step(s, a), t, k))
  {
    hide Inv, Step, Enabled, Known;
    if a == Resume {
      if s.l.cur == Thread(t) {
        OwnResume(s, t, k);
      } else {
        OtherResume(s, t);
      }
    } else {
      NotItsStep(s, a, t);
    }
  }

  /** Only a thread that is not in the middle of anything begins something. */
  lemma NotItsStep(s: Sys, a: Act, t: Tid)
    requires Known(s) && Enabled(s, a) && a != Resume && t in s.pc && s.pc[t] != Idle
    ensures t in Step(s, a).pc && Step(s, a).pc[t] == s.pc[t]
  {
    hide Census, Waking, Staying, FirstOn, Known, Room;
  }

  lemma OtherResume(s: Sys, t: Tid)
    requires Known(s) && Enabled(s, Resume) && t in s.pc && s.l.cur != Thread(t)
    ensures t in Step(s, Resume).pc && Step(s, Resume).pc[t] == s.pc[t]
  {
    hide TryP, TryAcquire;
    match s.pc[s.l.cur.tid] {
      case InP(x) => OwnP(s, x);
      case InAcquire(l) => OwnAcquire(s, l, InAcquire(l));
      case InWait(_, l) => OwnAcquire(s, l, Rewait(l));
      case Rewait(l) => OwnAcquire(s, l, Rewait(l));
    }
  }

  lemma OwnP(s: Sys, x: nat)
    requires s.l.cur.Thread? && x in s.sems
    ensures TryP(s, x).l.runq == s.l.runq
    ensures forall t :: t in s.pc && s.l.cur != Thread(t) ==> t in TryP(s, x).pc && TryP(s, x).pc[t] == s.pc[t]
  {
    hide Room;
  }

  lemma OwnAcquire(s: Sys, l: nat, pc: Pc)
    requires s.l.cur.Thread? && l in s.locks && l in s.crit
    ensures TryAcquire(s, l, pc).l.runq == s.l.runq
    ensures forall t :: t in s.pc && s.l.cur != Thread(t) ==>
              t in TryAcquire(s, l, pc).pc && TryAcquire(s, l, pc).pc[t] == s.pc[t]
  {
    hide Room;
  }

  lemma OwnResume(s: Sys, t: Tid, k: nat)
    requires Inv(s) && Known(s) && Enabled(s, Resume) && WaitsFor(s, t, k) && s.l.cur == Thread(t)
    ensures WaitsFor(Step(s, Resume), t, k) || Returned(Step(s, Resume), t, k)
  {
    hide Census, Conserved, PcsOk, NoLost, Ordered, Room;
  }

  /** Over every run: a wait that is over ended at some step, at which its thread had the lock to itself. */
  lemma {:induction false} WaiterReturnsHolding(s: Sys, acts: seq<Act>, t: Tid, k: nat) returns (i: nat)
    requires Inv(s) && IsRun(s, acts) && WaitsFor(s, t, k) && !WaitsFor(After(s, acts), t, k)
    ensures i < |acts| && acts[i] == Resume && IsRun(s, acts[..i]) && IsRun(s, acts[..i + 1])
    ensures WaitsFor(After(s, acts[..i]), t, k) && Returned(After(s, acts[..i + 1]), t, k)
    decreases |acts|
  {
    hide Inv, Step, Enabled, Known, WaitsFor, Returned;
    WaitGoesOn(s, acts[0], t, k);
    StepKeeps(s, acts[0]);
    if WaitsFor(Step(s, acts[0]), t, k) {
      var j := WaiterReturnsHolding(Step(s, acts[0]), acts[1..], t, k);
      i := j + 1;
      assert acts[..i][1..] == acts[1..][..j] && acts[..i + 1][1..] == acts[1..][..j + 1];
    } else {
      i := 0;
      assert acts[..1] == [acts[0]] && acts[..1][1..] == [] && acts[..0] == [];
    }
  }

  predicate WaitsOn(s: Sys, t: Tid, c: nat) {
    t in s.l.sleepers && SleepsOn(s.l.on, t, OnCv(c))
  }

  /** Releasing the lock and falling asleep is one step: there is no state in between a signal could miss. */
  lemma WaitSleeps(s: Sys, c: nat, k: nat)
    requires Known(s) && Enabled(s, Wait(c, k))
    ensures WaitsOn(Step(s, Wait(c, k)), s.l.cur.tid, c) && k in Step(s, Wait(c, k)).locks
    ensures !Step(s, Wait(c, k)).locks[k].held
  {
  }

  lemma StillWaits(s: Sys, a: Act, t: Tid, c: nat)
    requires Inv(s) && Known(s) && Enabled(s, a) && WaitsOn(s, t, c) && a != Signal(c) && a != Broadcast(c)
    ensures WaitsOn(Step(s, a), t, c)
  {
    hide InvBut, WakeAll, FirstOn, Census, Conserved, SleepOn, Without;
    InvParts(s, {});
    if s.l.cur.Thread? {
      CurrentIsApart(s.l);
    }
    match a {
      case P(x) => AsleepStays(s, OnSem(x), InP(x), t, c);
      case V(x) => OthersWake(s.l, OnSem(x), t, c);
      case Interrupt(x) => OthersWake(s.l, OnSem(x), t, c);
      case Acquire(k) => AsleepStays(s, OnLock(k), InAcquire(k), t, c);
      case Release(k) => OthersWake(s.l, OnLock(k), t, c);
      case Wait(d, k) => WaitStays(s, d, k, t, c);
      case Broadcast(d) => OthersWake(s.l, OnCv(d), t, c);
      case Signal(d) => OthersStay(s.l.sleepers, FirstOn(s.l.sleepers, s.l.on, OnCv(d)), t);
      case Resume => ResumeStays(s, t, c);
      case _ =>
    }
  }

  lemma WaitStays(s: Sys, d: nat, k: nat, t: Tid, c: nat)
    requires Known(s) && s.l.cur.Thread? && s.l.cur.tid != t && Enabled(s, Wait(d, k)) && WaitsOn(s, t, c)
    ensures WaitsOn(Step(s, Wait(d, k)), t, c)
  {
    hide WakeAll, SleepOn;
    OthersWake(s.l, OnLock(k), t, c);
    AsleepStays(DoRelease(s, k), OnCv(d), InWait(d, k), t, c);
  }

  /** Another thread falling asleep wakes nobody. */
  lemma AsleepStays(s: Sys, a: Addr, pc: Pc, t: Tid, c: nat)
    requires s.l.cur.Thread? && s.l.cur.tid != t && WaitsOn(s, t, c)
    ensures WaitsOn(SleepOn(s, a, pc), t, c)
  {
  }

  /** Waking those on another address leaves this one asleep. */
  lemma OthersWake(l: Lists, a: Addr, t: Tid, c: nat)
    requires t in l.sleepers && SleepsOn(l.on, t, OnCv(c)) && a != OnCv(c)
    ensures t in WakeAll(l, a).sleepers && WakeAll(l, a).on == l.on && WakeAll(l, a).cur == l.cur
  {
    WhoWakes(l.sleepers, l.on, a, t);
  }

  lemma ResumeStays(s: Sys, t: Tid, c: nat)
    requires Known(s) && Enabled(s, Resume) && WaitsOn(s, t, c) && s.l.cur.tid != t
    ensures WaitsOn(Step(s, Resume), t, c)
  {
    hide SleepOn;
    match s.pc[s.l.cur.tid] {
      case InP(x) => AsleepStays(s, OnSem(x), InP(x), t, c);
      case InAcquire(k) => AsleepStays(s, OnLock(k), InAcquire(k), t, c);
      case InWait(_, k) => AsleepStays(s, OnLock(k), Rewait(k), t, c);
      case Rewait(k) => AsleepStays(s, OnLock(k), Rewait(k), t, c);
    }
  }

  lemma OthersStay(s: seq<Tid>, i: nat, t: Tid)
    requires t in s
    ensures i < |s| && s[i] != t ==> t in Without(s, i)
  {
    if i < |s| && s[i] != t {
      var j :| 0 <= j < |s| && s[j] == t;
      assert Without(s, i)[if j < i then j else j - 1] == t;
    }
  }

  /** A waiter stays for as long as nobody signals its condition variable. */
  lemma {:induction false} WaiterStays(s: Sys, acts: seq<Act>, t: Tid, c: nat)
    requires Inv(s) && IsRun(s, acts) && WaitsOn(s, t, c) && Signal(c) !in acts && Broadcast(c) !in acts
    ensures WaitsOn(After(s, acts), t, c)
    decreases |acts|
  {
    hide Inv, Step, Enabled, Known, WaitsOn;
    if acts != [] {
      StepKeeps(s, acts[0]);
      StillWaits(s, acts[0], t, c);
      WaiterStays(Step(s, acts[0]), acts[1..], t, c);
    }
  }

  /** A signal wakes exactly one waiter, the one asleep longest, and puts it at the end of the run queue. */
  lemma SignalWakesLongest(s: Sys, c: nat, t: Tid)
    requires Inv(s) && Known(s) && Enabled(s, Signal(c)) && WaitsOn(s, t, c)
    requires forall u :: WaitsOn(s, u, c) && u != t ==> u in s.since && t in s.since && s.since[t] < s.since[u]
    ensures Step(s, Signal(c)).l.runq == s.l.runq + [t]
    ensures !WaitsOn(Step(s, Signal(c)), t, c)
    ensures forall u :: WaitsOn(s, u, c) && u != t ==> WaitsOn(Step(s, Signal(c)), u, c)
  {
    hide Census, Conserved, PcsOk, NoLost, OutsideOk, Without, FirstOn;
    var sl := s.l.sleepers;
    var i := FirstOn(sl, s.l.on, OnCv(c));
    var j :| 0 <= j < |sl| && sl[j] == t;
    assert i <= j;
    assert WaitsOn(s, sl[i], c);
    assert i == j;
    forall u | WaitsOn(s, u, c) && u != t ensures u in Without(sl, i) {
      OthersStay(sl, i, u);
    }
    GoneOnce(s.since, sl, i);
  }

  lemma GoneOnce(since: map<Tid, nat>, s: seq<Tid>, i: nat)
    requires SortedBy(since, s) && i < |s|
    ensures s[i] !in Without(s, i)
  {
    var r := Without(s, i);
    forall j | 0 <= j < |r| ensures r[j] != s[i] {
      var k := if j < i then j else j + 1;
      assert r[j] == s[k] && since[s[k]] != since[s[i]];
    }
  }

  /** A signal nobody waits for is forgotten. */
  lemma SignalWithoutWaiter(s: Sys, c: nat)
    requires Known(s) && Enabled(s, Signal(c)) && NobodyOn(s.l, OnCv(c))
    ensures Step(s, Signal(c)) == s
  {
    FirstOnIs(s.l.sleepers, s.l.on, OnCv(c), |s.l.sleepers|);
  }

  /** A broadcast wakes every waiter. */
  lemma BroadcastWakesAll(s: Sys, c: nat, t: Tid)
    requires Inv(s) && Known(s) && Enabled(s, Broadcast(c)) && WaitsOn(s, t, c)
    ensures t in Step(s, Broadcast(c)).l.runq && NobodyOn(Step(s, Broadcast(c)).l, OnCv(c))
  {
    hide InvBut, Waking, Staying;
    WakeAllKeeps(s, OnCv(c), {});
    WhoWakes(s.l.sleepers, s.l.on, OnCv(c), t);
  }

  // ---------------------------------------------------------------------------------------
  // Threads

  /** In every reachable state each thread is in exactly one place. */
  lemma ThreadsConserved(s: Sys, acts: seq<Act>)
    requires Init(s) && IsRun(s, acts)
    ensures Conserved(After(s, acts).l)
  {
    hide Init, InvBut, IsRun, After, Conserved;
    Reachable(s, acts);
    InvParts(After(s, acts), {});
  }

  /** After the first fork there is always room for the current thread to fall asleep. */
  lemma SleepNeedsNoMemory(s: Sys, acts: seq<Act>)
    requires Init(s) && IsRun(s, acts) && After(s, acts).forked && After(s, acts).l.cur.Thread?
    ensures |After(s, acts).l.sleepers| < After(s, acts).room
  {
    hide Init, IsRun, After, Conserved, PcsOk, NoLost;
    Reachable(s, acts);
    CurrentIsApart(After(s, acts).l);
  }

  /** A thread that yields is last in the run queue, and nothing else changes. */
  lemma YieldGoesLast(s: Sys)
    requires Known(s) && Enabled(s, Yield)
    ensures var n := Step(s, Yield);
            && n.l.runq == s.l.runq + [s.l.cur.tid] && n.l.cur == Nobody && n.pc == s.pc
            && n.l.sleepers == s.l.sleepers && n.l.zombies == s.l.zombies && n.l.num == s.l.num
            && n.sems == s.sems && n.locks == s.locks && n.crit == s.crit
  {
  }

  /** A new thread is last in the run queue, at its start and counted; the thread that made it runs on. */
  lemma ForkAddsOne(s: Sys, t: Tid)
    requires Known(s) && Enabled(s, Fork(t))
    ensures var n := Step(s, Fork(t));
            && n.l.runq == s.l.runq + [t] && n.l.num == s.l.num + 1 && n.l.cur == s.l.cur && n.pc == s.pc[t := Idle]
            && n.l.sleepers == s.l.sleepers && n.l.zombies == s.l.zombies
            && n.sems == s.sems && n.locks == s.locks && n.crit == s.crit && n.forked && n.room >= n.l.num
  {
  }

  /** A thread that exits is dead, in no other list, and no longer counted. */
  lemma ExitIsFinal(s: Sys)
    requires Inv(s) && Known(s) && Enabled(s, Exit)
    ensures var n, t := Step(s, Exit), s.l.cur.tid;
            && n.l.zombies == s.l.zombies + [t] && n.l.num == s.l.num - 1 && n.l.cur == Nobody
            && t !in n.l.runq && t !in n.l.sleepers && n.l.runq == s.l.runq && n.l.sleepers == s.l.sleepers
            && n.sems == s.sems && n.locks == s.locks && n.crit == s.crit
  {
    hide PcsOk, NoLost, Ordered;
    CurrentIsApart(s.l);
  }

  ghost function CountDispatches(acts: seq<Act>): nat {
    if acts == [] then 0 else (if acts[0].Dispatch? then 1 else 0) + CountDispatches(acts[1..])
  }

  lemma QueueStep(s: Sys, a: Act)
    requires Known(s) && Enabled(s, a)
    ensures if a.Dispatch? then s.l.runq != [] && Step(s, a).l.runq == s.l.runq[1..] &&
              Step(s, a).l.cur == Thread(s.l.runq[0])
            else s.l.runq <= Step(s, a).l.runq
  {
    hide Waking, Staying, FirstOn, Known, Without;
    if a.Resume? {
      QueueResume(s);
    }
  }

  lemma QueueResume(s: Sys)
    requires Known(s) && Enabled(s, Resume)
    ensures Step(s, Resume).l.runq == s.l.runq
  {
    hide TryP, TryAcquire;
    match s.pc[s.l.cur.tid] {
      case InP(x) => OwnP(s, x);
      case InAcquire(l) => OwnAcquire(s, l, InAcquire(l));
      case InWait(_, l) => OwnAcquire(s, l, Rewait(l));
      case Rewait(l) => OwnAcquire(s, l, Rewait(l));
    }
  }

  /** The run queue is served in order: a thread at position `k` runs at the dispatch after `k` others. */
  lemma {:induction false} ServedInOrder(s: Sys, acts: seq<Act>, k: nat)
    requires IsRun(s, acts) && k < |s.l.runq| && CountDispatches(acts) <= k
    ensures k - CountDispatches(acts) < |After(s, acts).l.runq|
    ensures After(s, acts).l.runq[k - CountDispatches(acts)] == s.l.runq[k]
    decreases |acts|
  {
    hide Step, Enabled, Known;
    if acts != [] {
      QueueStep(s, acts[0]);
      ServedInOrder(Step(s, acts[0]), acts[1..], if acts[0].Dispatch? then k - 1 else k);
    }
  }

  lemma RunsAtItsTurn(s: Sys, acts: seq<Act>, k: nat, isnew: bool)
    requires IsRun(s, acts) && k < |s.l.runq| && CountDispatches(acts) == k
    requires Known(After(s, acts)) && Enabled(After(s, acts), Dispatch(isnew))
    ensures Step(After(s, acts), Dispatch(isnew)).l.cur == Thread(s.l.runq[k])
  {
    hide Step, Enabled, Known, IsRun, After;
    ServedInOrder(s, acts, k);
    QueueStep(After(s, acts), Dispatch(isnew));
  }
}
