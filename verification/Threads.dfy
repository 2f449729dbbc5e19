/**
 The thread system: the current thread, the run queue, the sleepers and the zombies, and the
 functions that move threads between them.
 */
module Threads {
  import opened RingQueue
  import opened PtrArrays

  type Tid = nat

  /** What a thread can sleep on. */
  datatype Addr = OnSem(s: nat) | OnLock(l: nat) | OnCv(c: nat)

  datatype Current = Nobody | Thread(tid: Tid)

  /** Where a thread leaves the processor for. */
  datatype NextState = Ready | Asleep(a: Addr) | Zombie

  datatype Lists = Lists(cur: Current, runq: seq<Tid>, sleepers: seq<Tid>, on: map<Tid, Addr>, zombies: seq<Tid>,
    num: nat)

  // ---------------------------------------------------------------------------------------
  // What the operations do

  predicate SleepsOn(on: map<Tid, Addr>, t: Tid, a: Addr) {
    t in on && on[t] == a
  }

  /** The threads of a list that sleep on `a`, in order. */
  function Waking(s: seq<Tid>, on: map<Tid, Addr>, a: Addr): seq<Tid> {
    if s == [] then [] else (if SleepsOn(on, s[0], a) then [s[0]] else []) + Waking(s[1..], on, a)
  }

  function Staying(s: seq<Tid>, on: map<Tid, Addr>, a: Addr): seq<Tid> {
    if s == [] then [] else (if SleepsOn(on, s[0], a) then [] else [s[0]]) + Staying(s[1..], on, a)
  }

  /** The first of a list to sleep on `a`, its length if there is none. */
  function FirstOn(s: seq<Tid>, on: map<Tid, Addr>, a: Addr): (i: nat)
    ensures i <= |s| && (i < |s| ==> SleepsOn(on, s[i], a))
    ensures forall j :: 0 <= j < i ==> !SleepsOn(on, s[j], a)
  {
    if s == [] || SleepsOn(on, s[0], a) then 0 else 1 + FirstOn(s[1..], on, a)
  }

  lemma FirstOnIs(s: seq<Tid>, on: map<Tid, Addr>, a: Addr, i: nat)
    requires i <= |s| && (i < |s| ==> SleepsOn(on, s[i], a)) && forall j :: 0 <= j < i ==> !SleepsOn(on, s[j], a)
    ensures FirstOn(s, on, a) == i
  {
    var j := FirstOn(s, on, a);
    assert !(j < i) && !(i < j);
  }

  function WakeAll(l: Lists, a: Addr): Lists {
    l.(runq := l.runq + Waking(l.sleepers, l.on, a), sleepers := Staying(l.sleepers, l.on, a))
  }

  function WakeOne(l: Lists, a: Addr): Lists {
    var i := FirstOn(l.sleepers, l.on, a);
    if i == |l.sleepers| then l
    else l.(runq := l.runq + [l.sleepers[i]], sleepers := Without(l.sleepers, i))
  }

  /** The current thread goes where it has to, and nobody runs. */
  function Stash(l: Lists, next: NextState): Lists
    requires l.cur.Thread?
  {
    var t := l.cur.tid;
    match next
    case Ready => l.(cur := Nobody, runq := l.runq + [t])
    case Asleep(a) => l.(cur := Nobody, sleepers := l.sleepers + [t], on := l.on[t := a])
    case Zombie => l.(cur := Nobody, zombies := l.zombies + [t])
  }

  function Dispatch(l: Lists): Lists
    requires l.runq != []
  {
    l.(cur := Thread(l.runq[0]), runq := l.runq[1..])
  }

  // ---------------------------------------------------------------------------------------
  // Conservation

  function Running(c: Current): seq<Tid> {
    if c.Nobody? then [] else [c.tid]
  }

  /** Every thread there is, with how often it occurs. */
  function Census(l: Lists): multiset<Tid> {
    multiset(Running(l.cur)) + multiset(l.runq) + multiset(l.sleepers) + multiset(l.zombies)
  }

  /** Each thread is in exactly one place, and the count is that of the threads that are not dead. */
  predicate Conserved(l: Lists) {
    && (forall t :: t in Census(l) ==> Census(l)[t] == 1)
    && l.num == |Running(l.cur)| + |l.runq| + |l.sleepers|
    && (forall t :: t in l.sleepers ==> t in l.on)
  }

  lemma CountFirst(x: Tid, w: seq<Tid>, t: seq<Tid>, r: seq<Tid>)
    requires multiset(w) + multiset(t) == multiset(r)
    ensures multiset([x] + w) + multiset(t) == multiset([x] + r)
    ensures multiset(w) + multiset([x] + t) == multiset([x] + r)
  {
    assert multiset([x] + w) == multiset{x} + multiset(w);
    assert multiset([x] + t) == multiset{x} + multiset(t);
    assert multiset([x] + r) == multiset{x} + multiset(r);
  }

  lemma WakingFirst(s: seq<Tid>, on: map<Tid, Addr>, a: Addr)
    requires s != []
    ensures Waking(s, on, a) ==
              (if SleepsOn(on, s[0], a) then [s[0]] + Waking(s[1..], on, a) else Waking(s[1..], on, a))
    ensures Staying(s, on, a) ==
              (if SleepsOn(on, s[0], a) then Staying(s[1..], on, a) else [s[0]] + Staying(s[1..], on, a))
  {
  }

  lemma {:induction false} Parted(s: seq<Tid>, on: map<Tid, Addr>, a: Addr)
    ensures multiset(Waking(s, on, a)) + multiset(Staying(s, on, a)) == multiset(s)
    ensures |Waking(s, on, a)| + |Staying(s, on, a)| == |s|
  {
    if s != [] {
      Parted(s[1..], on, a);
      PartFirst(s, on, a);
    }
  }

  lemma PartFirst(s: seq<Tid>, on: map<Tid, Addr>, a: Addr)
    requires s != []
    requires multiset(Waking(s[1..], on, a)) + multiset(Staying(s[1..], on, a)) == multiset(s[1..])
    requires |Waking(s[1..], on, a)| + |Staying(s[1..], on, a)| == |s| - 1
    ensures multiset(Waking(s, on, a)) + multiset(Staying(s, on, a)) == multiset(s)
    ensures |Waking(s, on, a)| + |Staying(s, on, a)| == |s|
  {
    hide SleepsOn, Waking, Staying;
    assert s == [s[0]] + s[1..];
    WakingFirst(s, on, a);
    CountFirst(s[0], Waking(s[1..], on, a), Staying(s[1..], on, a), s[1..]);
  }

  /** Exactly those who sleep on the address wake. */
  lemma {:induction false} WhoWakes(s: seq<Tid>, on: map<Tid, Addr>, a: Addr, t: Tid)
    ensures t in Waking(s, on, a) <==> t in s && SleepsOn(on, t, a)
    ensures t in Staying(s, on, a) <==> t in s && !SleepsOn(on, t, a)
  {
    hide SleepsOn;
    if s != [] {
      assert s == [s[0]] + s[1..];
      WhoWakes(s[1..], on, a, t);
    }
  }

  lemma WakeAllConserves(l: Lists, a: Addr)
    ensures Census(WakeAll(l, a)) == Census(l)
    ensures Conserved(l) ==> Conserved(WakeAll(l, a))
  {
    hide Waking, Staying;
    Parted(l.sleepers, l.on, a);
    forall t | t in Staying(l.sleepers, l.on, a) ensures t in l.sleepers {
      WhoWakes(l.sleepers, l.on, a, t);
    }
  }

  lemma SplitAt(s: seq<Tid>, i: nat)
    requires i < |s|
    ensures multiset(Without(s, i)) + multiset{s[i]} == multiset(s)
  {
    assert s == s[..i] + [s[i]] + s[i + 1..];
  }

  lemma WakeOneCensus(l: Lists, a: Addr)
    ensures Census(WakeOne(l, a)) == Census(l)
  {
    hide FirstOn, Without;
    var i := FirstOn(l.sleepers, l.on, a);
    if i < |l.sleepers| {
      SplitAt(l.sleepers, i);
    }
  }

  lemma WakeOneConserves(l: Lists, a: Addr)
    ensures Census(WakeOne(l, a)) == Census(l)
    ensures Conserved(l) ==> Conserved(WakeOne(l, a))
  {
    hide Census;
    WakeOneCensus(l, a);
  }

  lemma StashConserves(l: Lists, next: NextState)
    requires l.cur.Thread?
    ensures Census(Stash(l, next)) == Census(l)
    ensures Conserved(l) ==> Conserved(Stash(l, next).(num := if next.Zombie? then l.num - 1 else l.num))
  {
  }

  lemma DispatchConserves(l: Lists)
    requires l.runq != [] && l.cur.Nobody?
    ensures Census(Dispatch(l)) == Census(l)
    ensures Conserved(l) ==> Conserved(Dispatch(l))
  {
    assert l.runq == [l.runq[0]] + l.runq[1..];
  }

  // ---------------------------------------------------------------------------------------
  // When the room that thread_fork makes is enough

  /**
   With as many slots as threads, a wakeup without memory fits in the run queue unless the processor
   is idle, the ring has no slot to spare and every thread there is sleeps on the address.
   */
  lemma WakeFits(l: Lists, size: nat, a: Addr)
    requires Conserved(l) && size >= l.num
    ensures |l.runq| + |Waking(l.sleepers, l.on, a)| < size <==>
            l.cur.Thread? || size > l.num || exists t :: t in l.sleepers && !SleepsOn(l.on, t, a)
  {
    hide Waking, Staying, SleepsOn;
    Parted(l.sleepers, l.on, a);
    var s := Staying(l.sleepers, l.on, a);
    if s != [] {
      WhoWakes(l.sleepers, l.on, a, s[0]);
    }
    forall t | t in l.sleepers && !SleepsOn(l.on, t, a) ensures s != [] {
      WhoWakes(l.sleepers, l.on, a, t);
    }
  }

  /** With as many slots as threads, a yield without memory fits unless no slot is to spare and nobody sleeps. */
  lemma YieldFits(l: Lists, size: nat)
    requires Conserved(l) && l.cur.Thread? && size >= l.num
    ensures |l.runq| + 1 < size <==> size > l.num || l.sleepers != []
  {
  }

  /** Thirty-one forks fill the ring of 32 slots, and the thread that yields then needs memory. */
  method FullRing() returns (ok: bool)
    ensures !ok
  {
    hide Grown;
    var sys := new ThreadSystem(0);
    ok := true;
    for i := 0 to 31
      invariant sys.Valid() && sys.curthread == Thread(0) && sys.numthreads == i + 1
      invariant |sys.runqueue.Contents()| == i && sys.runqueue.size == 32
      invariant fresh(sys) && fresh(sys.runqueue) && fresh(sys.sleepers) && fresh(sys.zombies)
      invariant fresh(sys.runqueue.data) && fresh(sys.sleepers.v) && fresh(sys.zombies.v)
    {
      var forked := sys.Fork(i + 1, true, true, true, false);
    }
    ok := sys.Leave(Ready, false);
  }

  // ---------------------------------------------------------------------------------------
  // The thread system in memory

  /** The slots of the run queue after q_preallocate. */
  function Ring(size: nat, n: nat): nat
    requires size > 0
  {
    if n <= size then size else Grown(size, n)
  }

  class ThreadSystem {
    var curthread: Current
    const runqueue: Queue<Tid>
    const sleepers: PtrArray<Tid>
    const zombies: PtrArray<Tid>
    var sleepaddr: map<Tid, Addr>
    var numthreads: nat

    ghost predicate Valid()
      reads this, runqueue, sleepers, zombies
    {
      && runqueue.Valid() && sleepers.Valid() && zombies.Valid() && sleepers != zombies
      && runqueue.data != sleepers.v && runqueue.data != zombies.v && sleepers.v != zombies.v
    }

    ghost function L(): Lists
      requires Valid()
      reads this, runqueue, sleepers, zombies, runqueue.data, sleepers.v, zombies.v
    {
      Lists(curthread, runqueue.Contents(), sleepers.Contents(), sleepaddr, zombies.Contents(), numthreads)
    }

    /** thread_bootstrap: one thread, already running. */
    constructor (me: Tid)
      ensures Valid() && L() == Lists(Thread(me), [], [], map[], [], 1) && Conserved(L())
      ensures runqueue.size == 32 && sleepers.max == 0 && zombies.max == 0
      ensures fresh(runqueue) && fresh(sleepers) && fresh(zombies) && fresh(runqueue.data) && fresh(sleepers.v)
      ensures fresh(zombies.v)
    {
      runqueue := new Queue(32);
      sleepers := new PtrArray();
      zombies := new PtrArray();
      curthread := Thread(me);
      sleepaddr := map[];
      numthreads := 1;
    }

    /** array_remove and make_runnable, as both wakeups call them, with the outcome of the second. */
    method MoveToQueue(i: nat, memory: bool) returns (ok: bool)
      requires Valid() && i < sleepers.num
      modifies runqueue, runqueue.data, sleepers, sleepers.v
      ensures Valid() && (ok <==> memory || |old(runqueue.Contents())| + 1 < old(runqueue.size))
      ensures sleepers.Contents() == Without(old(sleepers.Contents()), i)
      ensures ok ==> runqueue.Contents() == old(runqueue.Contents()) + [old(sleepers.Contents())[i]]
      ensures runqueue.data == old(runqueue.data) || fresh(runqueue.data)
      ensures runqueue.size >= old(runqueue.size) && (!memory ==> runqueue.size == old(runqueue.size))
      ensures sleepers.v == old(sleepers.v) && sleepers.max == old(sleepers.max)
    {
      FullIsOneLess(runqueue.data[..], runqueue.nextread, runqueue.nextwrite);
      var t := sleepers.v[i];
      sleepers.Remove(i);
      ok := runqueue.AddTail(t, memory);
    }

    /**
     thread_wakeup: everyone who sleeps on `addr`, in the order they fell asleep.  Its assertion
     fails, and `ok` is false, exactly if there is no memory and the ring cannot take them all.
     */
    method Wakeup(addr: Addr, memory: bool) returns (ok: bool)
      requires Valid()
      modifies runqueue, runqueue.data, sleepers, sleepers.v
      ensures Valid()
      ensures ok <==> memory ||
                      |old(runqueue.Contents())| + |Waking(old(sleepers.Contents()), sleepaddr,
                        addr)| < old(runqueue.size)
      ensures ok ==> L() == WakeAll(old(L()), addr)
      ensures runqueue.data == old(runqueue.data) || fresh(runqueue.data)
      ensures sleepers.v == old(sleepers.v) && sleepers.max == old(sleepers.max)
    {
      hide Partway, Waking, Staying;
      var i := 0;
      ghost var was, q0, done := sleepers.Contents(), runqueue.Contents(), 0;
      PartwayInit(was, q0, sleepaddr, addr);
      while i < sleepers.num
        invariant Valid() && i <= sleepers.num
        invariant runqueue.data == old(runqueue.data) || fresh(runqueue.data)
        invariant runqueue.size >= old(runqueue.size) && (!memory ==> runqueue.size == old(runqueue.size))
        invariant sleepers.v == old(sleepers.v) && sleepers.max == old(sleepers.max)
        invariant Partway(was, done, sleepers.Contents(), i, q0, runqueue.Contents(), sleepaddr, addr)
        decreases sleepers.num - i
      {
        var t := sleepers.v[i];
        PartwayNext(was, done, sleepers.Contents(), i, q0, runqueue.Contents(), sleepaddr, addr);
        if SleepsOn(sleepaddr, t, addr) {
          // The same index now holds the next sleeper.
          PartwayCount(was, done, sleepers.Contents(), i, q0, runqueue.Contents(), sleepaddr, addr);
          ok := MoveToQueue(i, memory);
          if !ok {
            return;
          }
        } else {
          i := i + 1;
        }
        done := done + 1;
      }
      PartwayDone(was, done, sleepers.Contents(), q0, runqueue.Contents(), sleepaddr, addr);
      ok := true;
    }

    /**
     wakeup_single_thread: the first who sleeps on `addr`, if any; its assertion fails as that of thread_wakeup does.
     */
    method WakeupSingle(addr: Addr, memory: bool) returns (ok: bool)
      requires Valid()
      modifies runqueue, runqueue.data, sleepers, sleepers.v
      ensures Valid()
      ensures ok <==>
                memory || |old(runqueue.Contents())| + 1 < old(runqueue.size) || WakeOne(old(L()), addr) == old(L())
      ensures ok ==> L() == WakeOne(old(L()), addr)
      ensures sleepers.max == old(sleepers.max)
    {
      var i := 0;
      while i < sleepers.num
        invariant Valid() && i <= sleepers.num && L() == old(L()) && runqueue.size == old(runqueue.size)
        invariant forall j :: 0 <= j < i ==> !SleepsOn(sleepaddr, sleepers.Contents()[j], addr)
        invariant runqueue.data == old(runqueue.data) && sleepers.v == old(sleepers.v)
        decreases sleepers.num - i
      {
        var t := sleepers.v[i];
        assert t == sleepers.Contents()[i];
        if SleepsOn(sleepaddr, t, addr) {
          FirstOnIs(sleepers.Contents(), sleepaddr, addr, i);
          assert |WakeOne(L(), addr).sleepers| < |L().sleepers|;
          ok := MoveToQueue(i, memory);
          return;
        }
        i := i + 1;
      }
      FirstOnIs(sleepers.Contents(), sleepaddr, addr, |sleepers.Contents()|);
      ok := true;
    }

    /**
     mi_switch up to the scheduler: the current thread goes on the list it belongs to.  That
     takes memory exactly when the list is full.
     */
    method Leave(next: NextState, memory: bool) returns (ok: bool)
      requires Valid() && curthread.Thread?
      modifies this, runqueue, runqueue.data, sleepers, sleepers.v, zombies, zombies.v
      ensures Valid()
      ensures ok <==> memory || match next
                                case Ready => |old(runqueue.Contents())| + 1 < old(runqueue.size)
                                case Asleep(_) => |old(sleepers.Contents())| < old(sleepers.max)
                                case Zombie => |old(zombies.Contents())| < old(zombies.max)
      ensures ok ==> L() == Stash(old(L()), next)
      ensures sleepers.max == if next.Asleep? && ok then Room(old(sleepers.max), |old(sleepers.Contents())| + 1)
                else old(sleepers.max)
    {
      FullIsOneLess(runqueue.data[..], runqueue.nextread, runqueue.nextwrite);
      var cur := curthread.tid;
      curthread := Nobody;
      match next {
        case Ready => ok := runqueue.AddTail(cur, memory);
        case Asleep(a) =>
          sleepaddr := sleepaddr[cur := a];
          ok := sleepers.Add(cur, memory);
        case Zombie => ok := zombies.Add(cur, memory);
      }
    }

    /** mi_switch from the scheduler on: the head of the run queue runs, and reaps the dead unless it is new. */
    method Pick(isnew: bool)
      requires Valid() && curthread.Nobody? && !runqueue.Empty()
      modifies this, runqueue, zombies
      ensures Valid() && runqueue.size == old(runqueue.size) && sleepers.max == old(sleepers.max)
      ensures old(L()).runq != []
      ensures L() == Dispatch(old(L())).(zombies := if isnew then old(L()).zombies else [])
    {
      var next := runqueue.RemHead();
      curthread := Thread(next);
      if !isnew {
        var result := zombies.SetSize(0, false);
        assert result;
      }
    }

    /** The three preallocations of thread_fork: the lists keep what they hold. */
    method Reserve(m1: bool, m2: bool, m3: bool) returns (ok: bool)
      requires Valid()
      modifies runqueue, sleepers, zombies
      ensures Valid() && L() == old(L())
      ensures runqueue.data == old(runqueue.data) || fresh(runqueue.data)
      ensures sleepers.v == old(sleepers.v) || fresh(sleepers.v)
      ensures zombies.v == old(zombies.v) || fresh(zombies.v)
      ensures ok <==> m1 && m2 && (m3 || numthreads + 1 <= old(runqueue.size))
      ensures ok ==> zombies.max == Room(old(zombies.max), numthreads + 1)
      ensures ok ==> runqueue.size == Ring(old(runqueue.size), numthreads + 1)
      ensures sleepers.max == if m1 then Room(old(sleepers.max), numthreads + 1) else old(sleepers.max)
    {
      hide Room, Grown, Items, Next;
      ok := sleepers.Preallocate(numthreads + 1, m1);
      if !ok {
        return;
      }
      ok := zombies.Preallocate(numthreads + 1, m2);
      if !ok {
        return;
      }
      ok := runqueue.Preallocate(numthreads + 1, m3);
    }

    /**
     thread_fork, with the outcome of its four requests for memory.  Afterwards the lists have
     room: sleepers and zombies for every thread, the run queue for all but one.
     */
    method Fork(newguy: Tid, m1: bool, m2: bool, m3: bool, m4: bool) returns (ok: bool)
      requires Valid()
      modifies this, runqueue, runqueue.data, sleepers, sleepers.v, zombies, zombies.v
      ensures Valid()
      ensures L() == if ok then old(L()).(runq := old(L()).runq + [newguy], num := old(L()).num + 1) else old(L())
      ensures ok <==> m1 && m2 && (m3 || old(numthreads) + 1 <= old(runqueue.size))
                      && (m4 || |old(runqueue.Contents())| + 1 < Ring(old(runqueue.size), old(numthreads) + 1))
      ensures ok ==> sleepers.max >= numthreads && zombies.max >= numthreads && runqueue.size >= numthreads
      ensures ok && !m4 ==> runqueue.size == Ring(old(runqueue.size), old(numthreads) + 1)
      ensures curthread == old(curthread) && (runqueue.data == old(runqueue.data) || fresh(runqueue.data))
      ensures sleepers.v == old(sleepers.v) || fresh(sleepers.v)
      ensures zombies.v == old(zombies.v) || fresh(zombies.v)
      ensures sleepers.max == if m1 then Room(old(sleepers.max), old(numthreads) + 1) else old(sleepers.max)
    {
      hide Room, Grown, Items, Next;
      ok := Reserve(m1, m2, m3);
      if !ok {
        return;
      }
      RingFull();
      ok := runqueue.AddTail(newguy, m4);
      if !ok {
        return;
      }
      numthreads := numthreads + 1;
    }

    lemma RingFull()
      requires Valid()
      ensures runqueue.Full() <==> |runqueue.Contents()| + 1 >= runqueue.size
    {
      FullIsOneLess(runqueue.data[..], runqueue.nextread, runqueue.nextwrite);
    }

    /** thread_hassleepers */
    method HasSleepers(addr: Addr) returns (r: bool)
      requires Valid()
      ensures r <==> exists j :: 0 <= j < |sleepers.Contents()| && SleepsOn(sleepaddr, sleepers.Contents()[j], addr)
    {
      for i := 0 to sleepers.num
        invariant forall j :: 0 <= j < i ==> !SleepsOn(sleepaddr, sleepers.Contents()[j], addr)
      {
        if SleepsOn(sleepaddr, sleepers.v[i], addr) {
          assert SleepsOn(sleepaddr, sleepers.Contents()[i], addr);
          return true;
        }
      }
      r := false;
    }
  }

  /** Of the sleepers `was`, the first `done` have been looked at: who stays is below `i`, the rest are in the queue. */
  ghost predicate Partway(was: seq<Tid>, done: nat, s: seq<Tid>, i: nat, q0: seq<Tid>, q: seq<Tid>, on: map<Tid, Addr>,
                          a: Addr) {
    && done <= |was| && i <= |s| && s[i..] == was[done..]
    && s[..i] == Staying(was[..done], on, a) && q == q0 + Waking(was[..done], on, a)
  }

  lemma PartwayInit(was: seq<Tid>, q0: seq<Tid>, on: map<Tid, Addr>, a: Addr)
    ensures Partway(was, 0, was, 0, q0, q0, on, a)
  {
  }

  lemma PartwayNext(was: seq<Tid>, done: nat, s: seq<Tid>, i: nat, q0: seq<Tid>, q: seq<Tid>, on: map<Tid, Addr>,
                    a: Addr)
    requires Partway(was, done, s, i, q0, q, on, a) && i < |s|
    ensures if SleepsOn(on, s[i], a) then Partway(was, done + 1, Without(s, i), i, q0, q + [s[i]], on, a)
            else Partway(was, done + 1, s, i + 1, q0, q, on, a)
  {
    hide Waking, Staying, SleepsOn;
    assert s[i] == s[i..][0] == was[done..][0] == was[done];
    assert was[..done + 1] == was[..done] + [was[done]];
    PartMore(was[..done], on, a, was[done]);
    assert s[i + 1..] == s[i..][1..] && was[done + 1..] == was[done..][1..];
    assert s[..i + 1] == s[..i] + [s[i]];
    var w := Without(s, i);
    assert w[i..] == s[i + 1..] && w[..i] == s[..i];
  }

  /** One more to wake means no fewer in all. */
  lemma PartwayCount(was: seq<Tid>, done: nat, s: seq<Tid>, i: nat, q0: seq<Tid>, q: seq<Tid>, on: map<Tid, Addr>,
                     a: Addr)
    requires Partway(was, done, s, i, q0, q, on, a) && i < |s| && SleepsOn(on, s[i], a)
    ensures |q| + 1 <= |q0| + |Waking(was, on, a)|
  {
    hide Waking, Staying, SleepsOn;
    assert s[i] == s[i..][0] == was[done..][0] == was[done];
    assert was[..done + 1] == was[..done] + [was[done]];
    PartMore(was[..done], on, a, was[done]);
    WakingPrefix(was, done + 1, on, a);
  }

  lemma {:induction false} WakingPrefix(s: seq<Tid>, k: nat, on: map<Tid, Addr>, a: Addr)
    requires k <= |s|
    ensures |Waking(s[..k], on, a)| <= |Waking(s, on, a)|
  {
    hide Waking;
    if k == |s| {
      assert s[..k] == s;
    } else {
      var r := s[..|s| - 1];
      assert s == r + [s[|s| - 1]] && s[..k] == r[..k];
      WakingMore(r, on, a, s[|s| - 1]);
      WakingPrefix(r, k, on, a);
    }
  }

  lemma PartwayDone(was: seq<Tid>, done: nat, s: seq<Tid>, q0: seq<Tid>, q: seq<Tid>, on: map<Tid, Addr>, a: Addr)
    requires Partway(was, done, s, |s|, q0, q, on, a)
    ensures s == Staying(was, on, a) && q == q0 + Waking(was, on, a)
  {
    assert |was[done..]| == 0;
    assert was[..done] == was && s[..|s|] == s;
  }

  lemma PartMore(s: seq<Tid>, on: map<Tid, Addr>, a: Addr, t: Tid)
    ensures Waking(s + [t], on, a) == Waking(s, on, a) + if SleepsOn(on, t, a) then [t] else []
    ensures Staying(s + [t], on, a) == Staying(s, on, a) + if SleepsOn(on, t, a) then [] else [t]
  {
    WakingMore(s, on, a, t);
    StayingMore(s, on, a, t);
  }

  lemma {:induction false} WakingMore(s: seq<Tid>, on: map<Tid, Addr>, a: Addr, t: Tid)
    ensures Waking(s + [t], on, a) == Waking(s, on, a) + if SleepsOn(on, t, a) then [t] else []
  {
    hide SleepsOn;
    if s != [] {
      assert (s + [t])[1..] == s[1..] + [t];
      WakingMore(s[1..], on, a, t);
    }
  }

  lemma {:induction false} StayingMore(s: seq<Tid>, on: map<Tid, Addr>, a: Addr, t: Tid)
    ensures Staying(s + [t], on, a) == Staying(s, on, a) + if SleepsOn(on, t, a) then [] else [t]
  {
    hide SleepsOn;
    if s != [] {
      assert (s + [t])[1..] == s[1..] + [t];
      StayingMore(s[1..], on, a, t);
    }
  }
}
