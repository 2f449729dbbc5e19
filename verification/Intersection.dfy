/**
 The intersection protocol: any number of cars, a gate that admits a bounded number of
 them, and one semaphore for each of the four regions of the intersection.

 A car thread is a script of messages and semaphore operations.  A step of the system is
 one operation of one car, so every interleaving of the threads is a schedule here.
 */
module Intersection {

  datatype Region = NW | SW | SE | NE

  /** The ring in which cars move through the regions. */
  function Next(r: Region): Region {
    match r
    case NW => SW
    case SW => SE
    case SE => NE
    case NE => NW
  }

  /** One operation of a crossing: print message number `nr`, or operate a region semaphore. */
  datatype Op = Msg(nr: nat, dest: nat) | P(r: Region) | V(r: Region)

  /** The most cars the gate lets in. */
  const GATE_LIMIT := 3

  function GoStraight(dir: nat): seq<Op> {
    match dir
    case 0 => [Msg(0, 2), P(NW), Msg(1, 2), P(SW), Msg(2, 2), V(NW), Msg(4, 2), V(SW)]
    case 1 => [Msg(0, 3), P(NE), Msg(1, 3), P(NW), Msg(2, 3), V(NE), Msg(4, 3), V(NW)]
    case 2 => [Msg(0, 0), P(SE), Msg(1, 0), P(NE), Msg(2, 0), V(SE), Msg(4, 0), V(NE)]
    case 3 => [Msg(0, 1), P(SW), Msg(1, 1), P(SE), Msg(2, 1), V(SW), Msg(4, 1), V(SE)]
    case _ => []
  }

  function TurnLeft(dir: nat): seq<Op> {
    match dir
    case 0 => [Msg(0, 1), P(NW), Msg(1, 1), P(SW), Msg(2, 1), V(NW), P(SE), Msg(3, 1), V(SW), Msg(4, 1), V(SE)]
    case 1 => [Msg(0, 2), P(NE), Msg(1, 2), P(NW), Msg(2, 2), V(NE), P(SW), Msg(3, 2), V(NW), Msg(4, 2), V(SW)]
    case 2 => [Msg(0, 3), P(SE), Msg(1, 3), P(NE), Msg(2, 3), V(SE), P(NW), Msg(3, 3), V(NE), Msg(4, 3), V(NW)]
    case 3 => [Msg(0, 0), P(SW), Msg(1, 0), P(SE), Msg(2, 0), V(SW), P(NE), Msg(3, 0), V(SE), Msg(4, 0), V(NE)]
    case _ => []
  }

  function TurnRight(dir: nat): seq<Op> {
    match dir
    case 0 => [Msg(0, 3), P(NW), Msg(1, 3), Msg(4, 3), V(NW)]
    case 1 => [Msg(0, 0), P(NE), Msg(1, 0), Msg(4, 0), V(NE)]
    case 2 => [Msg(0, 1), P(SE), Msg(1, 1), Msg(4, 1), V(SE)]
    case 3 => [Msg(0, 2), P(SW), Msg(1, 2), Msg(4, 2), V(SW)]
    case _ => []
  }

  /** The script that approachintersection picks for a direction and a destination. */
  function Script(dir: nat, dest: nat): seq<Op> {
    match dir
    case 0 => if dest == 1 then TurnLeft(dir) else if dest == 2 then GoStraight(dir)
      else if dest == 3 then TurnRight(dir) else []
    case 1 => if dest == 0 then TurnRight(dir) else if dest == 2 then TurnLeft(dir)
      else if dest == 3 then GoStraight(dir) else []
    case 2 => if dest == 0 then GoStraight(dir) else if dest == 1 then TurnRight(dir)
      else if dest == 3 then TurnLeft(dir) else []
    case 3 => if dest == 0 then TurnLeft(dir) else if dest == 1 then GoStraight(dir)
      else if dest == 2 then TurnRight(dir) else []
    case _ => []
  }

  /** Where a car thread stands in approachintersection. */
  datatype Pc =
    | Want             // state 1, about to P the gate semaphore
    | Testing          // state 1, gate semaphore held, about to test the count
    | AdmitOut         // counted, about to V the gate semaphore
    | RefuseOut        // refused, about to V the gate semaphore and try again
    | Cross(k: nat)    // state 2, about to do operation k of its script
    | LeaveWant        // state 3, about to P the gate semaphore
    | LeaveHeld        // state 3, gate semaphore held, about to uncount itself
    | LeaveOut         // uncounted, about to V the gate semaphore
    | Done

  datatype Car = Car(dir: nat, dest: nat, pc: Pc)

  /** `limit` is the bound in the gate's test; the source has GATE_LIMIT. */
  datatype State = State(limit: nat, gate: nat, carcount: int, sem: map<Region, nat>, cars: seq<Car>)

  function Ops(c: Car): seq<Op> {
    Script(c.dir, c.dest)
  }

  predicate ValidCar(c: Car) {
    c.dir < 4 && c.dest < 4 && c.dir != c.dest && (c.pc.Cross? ==> c.pc.k < |Ops(c)|)
  }

  predicate ValidCars(s: State) {
    && (forall r: Region :: r in s.sem)
    && forall i :: 0 <= i < |s.cars| ==> ValidCar(s.cars[i])
  }

  predicate Enabled(s: State, i: nat)
    requires ValidCars(s)
  {
    && i < |s.cars|
    && match s.cars[i].pc
       case Done => false
       case Want => s.gate > 0
       case LeaveWant => s.gate > 0
       case Cross(k) => (match Ops(s.cars[i])[k] case P(r) => s.sem[r] > 0 case _ => true)
       case _ => true
  }

  function Advance(c: Car): Pc
    requires ValidCar(c) && c.pc.Cross?
  {
    if c.pc.k + 1 < |Ops(c)| then Cross(c.pc.k + 1) else LeaveWant
  }

  function Goto(s: State, i: nat, pc: Pc): State
    requires i < |s.cars|
  {
    s.(cars := s.cars[i := s.cars[i].(pc := pc)])
  }

  /** The effect of the next operation of car `i`. */
  function Fire(s: State, i: nat): State
    requires ValidCars(s) && Enabled(s, i)
  {
    var c := s.cars[i];
    match c.pc
    case Want => Goto(s.(gate := s.gate - 1), i, Testing)
    case Testing => if s.carcount < s.limit then Goto(s.(carcount := s.carcount + 1), i, AdmitOut)
      else Goto(s, i, RefuseOut)
    case AdmitOut => Goto(s.(gate := s.gate + 1), i, Cross(0))
    case RefuseOut => Goto(s.(gate := s.gate + 1), i, Want)
    case Cross(k) =>
      (match Ops(c)[k]
       case Msg(_, _) => Goto(s, i, Advance(c))
       case P(r) => Goto(s.(sem := s.sem[r := s.sem[r] - 1]), i, Advance(c))
       case V(r) => Goto(s.(sem := s.sem[r := s.sem[r] + 1]), i, Advance(c)))
    case LeaveWant => Goto(s.(gate := s.gate - 1), i, LeaveHeld)
    case LeaveHeld => Goto(s.(carcount := s.carcount - 1), i, LeaveOut)
    case LeaveOut => Goto(s.(gate := s.gate + 1), i, Done)
  }

  // ---------------------------------------------------------------------------------------
  // What a car holds

  /** The regions taken and not yet given back by the first `k` operations. */
  function HeldAfter(ops: seq<Op>, k: nat): set<Region>
    requires k <= |ops|
  {
    if k == 0 then {} else
    match ops[k - 1]
    case P(r) => HeldAfter(ops, k - 1) + {r}
    case V(r) => HeldAfter(ops, k - 1) - {r}
    case Msg(_, _) => HeldAfter(ops, k - 1)
  }

  function Holds(c: Car): set<Region>
    requires ValidCar(c)
  {
    if c.pc.Cross? then HeldAfter(Ops(c), c.pc.k) else {}
  }

  predicate InGate(pc: Pc) {
    pc.Testing? || pc.AdmitOut? || pc.RefuseOut? || pc.LeaveHeld? || pc.LeaveOut?
  }

  predicate Counted(pc: Pc) {
    pc.AdmitOut? || pc.Cross? || pc.LeaveWant? || pc.LeaveHeld?
  }

  /** The geometry of a crossing: the regions it passes through, in order. */
  function Route(dir: nat, dest: nat): seq<Region> {
    var first := if dir == 0 then NW else if dir == 1 then NE else if dir == 2 then SE else SW;
    if dest == (dir + 3) % 4 then [first]
    else if dest == (dir + 2) % 4 then [first, Next(first)]
    else [first, Next(first), Next(Next(first))]
  }

  /** The regions held after each prefix of a script, read off its route. */
  function HeldOnRoute(route: seq<Region>, k: nat): set<Region>
    requires 1 <= |route| <= 3
  {
    if k < 2 then {}
    else if |route| == 1 then (if k < 5 then {route[0]} else {})
    else if k < 4 then {route[0]}
    else if k < 6 then {route[0], route[1]}
    else if |route| == 2 then (if k < 8 then {route[1]} else {})
    else if k == 6 then {route[1]}
    else if k < 9 then {route[1], route[2]}
    else if k < 11 then {route[2]} else {}
  }

  /** The operation every script performs at step `k`, read off its route. */
  predicate OpOnRoute(route: seq<Region>, k: nat, op: Op)
    requires 1 <= |route| <= 3
  {
    match op
    case Msg(nr, _) => 1 <= nr <= 3 ==> nr <= |route| && route[nr - 1] in HeldOnRoute(route, k)
    case P(r) => r !in HeldOnRoute(route, k) &&
                 (HeldOnRoute(route, k) == {} || exists h :: HeldOnRoute(route, k) == {h} && Next(h) == r)
    case V(r) => r in HeldOnRoute(route, k)
  }

  lemma ScriptOp(dir: nat, dest: nat, k: nat)
    requires dir < 4 && dest < 4 && dir != dest
    requires k < |Script(dir, dest)|
    ensures OpOnRoute(Route(dir, dest), k, Script(dir, dest)[k])
  {
    hide TurnRight, GoStraight, TurnLeft, OpOnRoute, Route;
    if dest == (dir + 3) % 4 {
      RightOp(dir, k);
    } else if dest == (dir + 2) % 4 {
      StraightOp(dir, k);
    } else {
      LeftOp(dir, k);
    }
  }

  /**
   What a car bound for `dest` does on its route: announce itself, take each region before leaving the
   one before it and announce it, and announce that it leaves before giving the last one back.
   */
  function Plan(route: seq<Region>, dest: nat): seq<Op>
    requires 1 <= |route| <= 3
  {
    if |route| == 1 then [Msg(0, dest), P(route[0]), Msg(1, dest), Msg(4, dest), V(route[0])]
    else if |route| == 2 then
      [Msg(0, dest), P(route[0]), Msg(1, dest), P(route[1]), Msg(2, dest), V(route[0]), Msg(4, dest), V(route[1])]
    else
      [Msg(0, dest), P(route[0]), Msg(1, dest), P(route[1]), Msg(2, dest), V(route[0]),
       P(route[2]), Msg(3, dest), V(route[1]), Msg(4, dest), V(route[2])]
  }

  /** All twelve crossings are that plan for their own route and destination. */
  lemma ScriptIsPlan(dir: nat, dest: nat)
    requires dir < 4 && dest < 4 && dir != dest
    ensures Script(dir, dest) == Plan(Route(dir, dest), dest)
  {
    hide TurnRight, GoStraight, TurnLeft, Plan;
    if dest == (dir + 3) % 4 {
      RightPlan(dir);
    } else if dest == (dir + 2) % 4 {
      StraightPlan(dir);
    } else {
      LeftPlan(dir);
    }
  }

  lemma RightPlan(dir: nat)
    requires dir < 4
    ensures TurnRight(dir) == Plan(Route(dir, (dir + 3) % 4), (dir + 3) % 4)
  {
  }

  lemma StraightPlan(dir: nat)
    requires dir < 4
    ensures GoStraight(dir) == Plan(Route(dir, (dir + 2) % 4), (dir + 2) % 4)
  {
  }

  lemma LeftPlan(dir: nat)
    requires dir < 4
    ensures TurnLeft(dir) == Plan(Route(dir, (dir + 1) % 4), (dir + 1) % 4)
  {
  }

  lemma RightOp(dir: nat, k: nat)
    requires dir < 4 && k < |TurnRight(dir)|
    ensures OpOnRoute(Route(dir, (dir + 3) % 4), k, TurnRight(dir)[k])
  {
  }

  lemma StraightOp(dir: nat, k: nat)
    requires dir < 4 && k < |GoStraight(dir)|
    ensures OpOnRoute(Route(dir, (dir + 2) % 4), k, GoStraight(dir)[k])
  {
  }

  lemma LeftOp(dir: nat, k: nat)
    requires dir < 4 && k < |TurnLeft(dir)|
    ensures OpOnRoute(Route(dir, (dir + 1) % 4), k, TurnLeft(dir)[k])
  {
  }

  lemma ScriptStep(dir: nat, dest: nat, k: nat)
    requires dir < 4 && dest < 4 && dir != dest
    requires k < |Script(dir, dest)|
    ensures match Script(dir, dest)[k]
            case Msg(_, _) => HeldOnRoute(Route(dir, dest), k + 1) == HeldOnRoute(Route(dir, dest), k)
            case P(r) => HeldOnRoute(Route(dir, dest), k + 1) == HeldOnRoute(Route(dir, dest), k) + {r}
            case V(r) => HeldOnRoute(Route(dir, dest), k + 1) == HeldOnRoute(Route(dir, dest), k) - {r}
  {
  }

  /** What a script's operations hold is what its route says: the two definitions agree. */
  lemma {:induction false} HeldFollowsRoute(dir: nat, dest: nat, k: nat)
    requires dir < 4 && dest < 4 && dir != dest
    requires k <= |Script(dir, dest)|
    ensures HeldAfter(Script(dir, dest), k) == HeldOnRoute(Route(dir, dest), k)
  {
    if k > 0 {
      HeldFollowsRoute(dir, dest, k - 1);
      ScriptStep(dir, dest, k - 1);
    }
  }

  // ---------------------------------------------------------------------------------------
  // The invariant of every reachable state

  ghost function Holders(s: State, r: Region): set<nat>
    requires ValidCars(s)
  {
    set i: nat | i < |s.cars| && r in Holds(s.cars[i])
  }

  ghost function GateHolders(s: State): set<nat> {
    set i: nat | i < |s.cars| && InGate(s.cars[i].pc)
  }

  ghost function Admitted(s: State): set<nat> {
    set i: nat | i < |s.cars| && Counted(s.cars[i].pc)
  }

  /** Each semaphore and the counter agree with the cars that are inside them. */
  ghost predicate Inv(s: State) {
    && ValidCars(s)
    && s.gate + |GateHolders(s)| == 1
    && s.carcount == |Admitted(s)| <= s.limit
    && forall r :: s.sem[r] + |Holders(s, r)| == 1
  }

  /** Every car still to come, all semaphores at their initial count of 1. */
  predicate Init(s: State) {
    && s.gate == 1 && s.carcount == 0 && s.sem == map[NW := 1, SW := 1, SE := 1, NE := 1]
    && forall i :: 0 <= i < |s.cars| ==> ValidCar(s.cars[i]) && s.cars[i].pc == Want
  }

  lemma InitInv(s: State)
    requires Init(s)
    ensures Inv(s)
  {
    assert GateHolders(s) == {} && Admitted(s) == {};
    forall r: Region ensures r in s.sem && s.sem[r] == 1 {
      match r case NW => case SW => case SE => case NE =>
    }
    forall r ensures s.sem[r] + |Holders(s, r)| == 1 {
      assert Holders(s, r) == {};
    }
  }

  /** Only the stepping car's membership in a set of cars can change. */
  lemma SetStep(a: set<nat>, b: set<nat>, i: nat)
    requires a - {i} == b - {i}
    ensures |b| == |a| + (if i in b then 1 else 0) - (if i in a then 1 else 0)
  {
    assert b == (if i in b then (b - {i}) + {i} else b - {i});
    assert a == (if i in a then (a - {i}) + {i} else a - {i});
  }

  lemma FireKeepsValid(s: State, i: nat)
    requires ValidCars(s) && Enabled(s, i)
    ensures ValidCars(Fire(s, i))
    ensures forall j :: 0 <= j < |s.cars| && j != i ==> Fire(s, i).cars[j] == s.cars[j]
    ensures |Fire(s, i).cars| == |s.cars| && Fire(s, i).limit == s.limit
  {
  }

  lemma FireKeepsGate(s: State, i: nat)
    requires Inv(s) && Enabled(s, i)
    ensures Fire(s, i).gate + |GateHolders(Fire(s, i))| == 1
    ensures Fire(s, i).carcount == |Admitted(Fire(s, i))| <= s.limit
  {
    var t := Fire(s, i);
    FireKeepsValid(s, i);
    assert GateHolders(s) - {i} == GateHolders(t) - {i};
    SetStep(GateHolders(s), GateHolders(t), i);
    assert Admitted(s) - {i} == Admitted(t) - {i};
    SetStep(Admitted(s), Admitted(t), i);
  }

  /** The regions the stepping car holds change exactly as its semaphore operation says. */
  lemma FireHolds(s: State, i: nat)
    requires ValidCars(s) && Enabled(s, i)
    ensures ValidCars(Fire(s, i))
    ensures forall r ::
      s.sem[r] + (if r in Holds(s.cars[i]) then 1 else 0)
      == Fire(s, i).sem[r] + (if r in Holds(Fire(s, i).cars[i]) then 1 else 0)
  {
    hide Script, Route, HeldOnRoute;
    var c := s.cars[i];
    FireKeepsValid(s, i);
    if c.pc.Cross? {
      ScriptStep(c.dir, c.dest, c.pc.k);
      ScriptOp(c.dir, c.dest, c.pc.k);
      HeldFollowsRoute(c.dir, c.dest, c.pc.k);
      HeldFollowsRoute(c.dir, c.dest, c.pc.k + 1);
      ScriptEndsEmpty(c.dir, c.dest);
    }
  }

  /** A car that has run its whole script holds no region. */
  lemma ScriptEndsEmpty(dir: nat, dest: nat)
    requires dir < 4 && dest < 4 && dir != dest
    ensures HeldAfter(Script(dir, dest), |Script(dir, dest)|) == {}
  {
    HeldFollowsRoute(dir, dest, |Script(dir, dest)|);
  }

  lemma FireKeepsInv(s: State, i: nat)
    requires Inv(s) && Enabled(s, i)
    ensures Inv(Fire(s, i))
  {
    var t := Fire(s, i);
    FireKeepsValid(s, i);
    FireKeepsGate(s, i);
    FireHolds(s, i);
    forall r ensures t.sem[r] + |Holders(t, r)| == 1 {
      assert Holders(s, r) - {i} == Holders(t, r) - {i};
      SetStep(Holders(s, r), Holders(t, r), i);
    }
  }

  // ---------------------------------------------------------------------------------------
  // Runs

  /** A schedule names, step by step, the car that moves. */
  ghost predicate CanRun(s: State, sched: seq<nat>)
    decreases |sched|
  {
    sched == [] || (ValidCars(s) && Enabled(s, sched[0]) && CanRun(Fire(s, sched[0]), sched[1..]))
  }

  ghost function Run(s: State, sched: seq<nat>): State
    requires CanRun(s, sched)
    decreases |sched|
  {
    if sched == [] then s else Run(Fire(s, sched[0]), sched[1..])
  }

  lemma {:induction false} RunKeepsInv(s: State, sched: seq<nat>)
    requires Inv(s) && CanRun(s, sched)
    ensures Inv(Run(s, sched)) && Run(s, sched).limit == s.limit
    decreases |sched|
  {
    if sched != [] {
      FireKeepsInv(s, sched[0]);
      FireKeepsValid(s, sched[0]);
      RunKeepsInv(Fire(s, sched[0]), sched[1..]);
    }
  }

  lemma {:induction false} RunAppend(s: State, a: seq<nat>, b: seq<nat>)
    requires CanRun(s, a) && CanRun(Run(s, a), b)
    ensures CanRun(s, a + b) && Run(s, a + b) == Run(Run(s, a), b)
    decreases |a|
  {
    if a == [] {
      assert a + b == b;
    } else {
      assert (a + b)[0] == a[0] && (a + b)[1..] == a[1..] + b;
      RunAppend(Fire(s, a[0]), a[1..], b);
    }
  }

  /** Safety over all runs: a region never holds two cars, and no more than three are admitted. */
  lemma RegionsAreExclusive(s: State, sched: seq<nat>, i: nat, j: nat, r: Region)
    requires Init(s) && s.limit == GATE_LIMIT && CanRun(s, sched)
    ensures ValidCars(Run(s, sched))
    ensures i < |Run(s, sched).cars| && j < |Run(s, sched).cars| && i != j ==>
              !(r in Holds(Run(s, sched).cars[i]) && r in Holds(Run(s, sched).cars[j]))
    ensures |Admitted(Run(s, sched))| <= 3
  {
    InitInv(s);
    RunKeepsInv(s, sched);
    var t := Run(s, sched);
    if i < |t.cars| && j < |t.cars| && i != j && r in Holds(t.cars[i]) && r in Holds(t.cars[j]) {
      assert {i, j} <= Holders(t, r) && |{i, j}| == 2;
      CardSubset({i, j}, Holders(t, r));
      assert false;
    }
  }

  lemma {:induction false} CardSubset(a: set<nat>, b: set<nat>)
    requires a <= b
    ensures |a| <= |b|
  {
    if a != {} {
      var x :| x in a;
      CardSubset(a - {x}, b - {x});
    }
  }

  /** A car announces region `nr` of its route only while it holds that region's semaphore. */
  lemma AnnouncedRegionIsHeld(c: Car)
    requires ValidCar(c) && c.pc.Cross? && Ops(c)[c.pc.k].Msg? && 1 <= Ops(c)[c.pc.k].nr <= 3
    ensures Ops(c)[c.pc.k].nr <= |Route(c.dir, c.dest)|
    ensures Route(c.dir, c.dest)[Ops(c)[c.pc.k].nr - 1] in Holds(c)
  {
    hide Script, Route, HeldOnRoute, HeldAfter;
    ScriptOp(c.dir, c.dest, c.pc.k);
    HeldFollowsRoute(c.dir, c.dest, c.pc.k);
    RouteLength(c.dir, c.dest);
  }

  lemma RouteLength(dir: nat, dest: nat)
    ensures 1 <= |Route(dir, dest)| <= 3
  {
  }

  // ---------------------------------------------------------------------------------------
  // Remaining work

  function CarWork(pc: Pc): nat {
    match pc
    case Testing => 22
    case RefuseOut => 21
    case Want => 20
    case AdmitOut => 19
    case Cross(k) => if k < 12 then 16 - k else 4
    case LeaveWant => 3
    case LeaveHeld => 2
    case LeaveOut => 1
    case Done => 0
  }

  function Work(cars: seq<Car>): nat {
    if cars == [] then 0 else CarWork(cars[0].pc) + Work(cars[1..])
  }

  lemma {:induction false} WorkUpdate(cars: seq<Car>, i: nat, c: Car)
    requires i < |cars|
    ensures Work(cars[i := c]) == Work(cars) - CarWork(cars[i].pc) + CarWork(c.pc)
  {
    if i == 0 {
      assert cars[i := c][1..] == cars[1..];
    } else {
      assert cars[i := c][1..] == cars[1..][i - 1 := c];
      WorkUpdate(cars[1..], i - 1, c);
    }
  }

  /** Every step but knocking at the gate lowers the remaining work; knocking raises it by two. */
  lemma FireWork(s: State, i: nat)
    requires ValidCars(s) && Enabled(s, i)
    ensures s.cars[i].pc != Want ==> Work(Fire(s, i).cars) < Work(s.cars)
    ensures s.cars[i].pc == Want ==> Work(Fire(s, i).cars) == Work(s.cars) + 2
  {
    WorkUpdate(s.cars, i, Fire(s, i).cars[i]);
  }

  /** How many times cars knock at the gate in a run. */
  ghost function Knocks(s: State, sched: seq<nat>): nat
    requires CanRun(s, sched)
    decreases |sched|
  {
    if sched == [] then 0
    else (if s.cars[sched[0]].pc == Want then 1 else 0) + Knocks(Fire(s, sched[0]), sched[1..])
  }

  /** A run can be long only by spinning at the gate. */
  lemma {:induction false} RunLength(s: State, sched: seq<nat>)
    requires CanRun(s, sched)
    ensures |sched| + Work(Run(s, sched).cars) <= Work(s.cars) + 3 * Knocks(s, sched)
    decreases |sched|
  {
    if sched != [] {
      FireWork(s, sched[0]);
      RunLength(Fire(s, sched[0]), sched[1..]);
    }
  }

  // ---------------------------------------------------------------------------------------
  // Deadlock freedom

  /** Car `i` waits for a region that some car holds. */
  predicate Blocked(s: State, i: nat)
    requires ValidCars(s)
  {
    i < |s.cars| && s.cars[i].pc.Cross? && !Enabled(s, i)
  }

  /** A blocked car waits for a region held by another admitted car. */
  lemma BlockedByHolder(s: State, i: nat) returns (j: nat, r: Region)
    requires Inv(s) && Blocked(s, i)
    ensures Ops(s.cars[i])[s.cars[i].pc.k] == P(r)
    ensures j < |s.cars| && s.cars[j].pc.Cross? && r in Holds(s.cars[j])
    ensures Holds(s.cars[i]) == {} || exists h :: Holds(s.cars[i]) == {h} && Next(h) == r
  {
    hide Script, Route, HeldOnRoute, HeldAfter;
    var c := s.cars[i];
    r := Ops(c)[c.pc.k].r;
    assert |Holders(s, r)| == 1;
    j :| j in Holders(s, r);
    ScriptOp(c.dir, c.dest, c.pc.k);
    HeldFollowsRoute(c.dir, c.dest, c.pc.k);
  }

  ghost predicate AllBlocked(s: State)
    requires ValidCars(s)
  {
    forall j :: 0 <= j < |s.cars| && s.cars[j].pc.Cross? ==> Blocked(s, j)
  }

  /** A crossing car that holds exactly region `r`. */
  ghost predicate HoldsJust(s: State, i: nat, r: Region)
    requires ValidCars(s)
  {
    i < |s.cars| && s.cars[i].pc.Cross? && Holds(s.cars[i]) == {r}
  }

  /** When every crossing car is blocked, the holder of a region waits for the next one. */
  lemma WaitsForNext(s: State, i: nat, r: Region) returns (j: nat)
    requires Inv(s) && AllBlocked(s)
    requires i < |s.cars| && s.cars[i].pc.Cross? && r in Holds(s.cars[i])
    ensures HoldsJust(s, i, r)
    ensures j < |s.cars| && s.cars[j].pc.Cross? && Next(r) in Holds(s.cars[j])
  {
    var k, q := BlockedByHolder(s, i);
    j := k;
  }

  lemma FourRegions(r: Region)
    ensures r != Next(r) && r != Next(Next(r)) && r != Next(Next(Next(r)))
    ensures Next(r) != Next(Next(r)) && Next(r) != Next(Next(Next(r))) && Next(Next(r)) != Next(Next(Next(r)))
  {
  }

  /** Four cars that each hold one region, all different, are four cars. */
  lemma FourCars(s: State, a: nat, b: nat, c: nat, d: nat, r: Region)
    requires Inv(s)
    requires HoldsJust(s, a, r) && HoldsJust(s, b, Next(r))
    requires HoldsJust(s, c, Next(Next(r))) && HoldsJust(s, d, Next(Next(Next(r))))
    ensures |Admitted(s)| >= 4
  {
    hide Holds, Holders, GateHolders;
    FourRegions(r);
    assert |{a, b, c, d}| == 4;
    CardSubset({a, b, c, d}, Admitted(s));
  }

  /** If every crossing car is blocked, the waits close into a ring of four. */
  lemma RingOfFour(s: State, i: nat)
    requires Inv(s) && AllBlocked(s) && Blocked(s, i)
    ensures |Admitted(s)| >= 4
  {
    var a, r := BlockedByHolder(s, i);
    var b := WaitsForNext(s, a, r);
    var c := WaitsForNext(s, b, Next(r));
    var d := WaitsForNext(s, c, Next(Next(r)));
    var e := WaitsForNext(s, d, Next(Next(Next(r))));
    FourCars(s, a, b, c, d, r);
  }

  predicate AllDone(s: State) {
    forall i :: 0 <= i < |s.cars| ==> s.cars[i].pc == Done
  }

  lemma RunOne(s: State, i: nat)
    requires ValidCars(s) && Enabled(s, i)
    ensures CanRun(s, [i]) && Run(s, [i]) == Fire(s, i)
  {
    assert [i][1..] == [];
  }

  /** With room at the gate, a waiting car can be let in: three steps that lower the work. */
  lemma LetIn(s: State, i: nat)
    requires Inv(s) && i < |s.cars| && s.cars[i].pc == Want && s.gate == 1 && s.carcount < s.limit
    ensures CanRun(s, [i, i, i]) && Work(Run(s, [i, i, i]).cars) < Work(s.cars)
  {
    var t := Fire(s, i);
    FireKeepsInv(s, i);
    FireWork(s, i);
    var u := Fire(t, i);
    FireKeepsInv(t, i);
    WorkUpdate(t.cars, i, u.cars[i]);
    var v := Fire(u, i);
    WorkUpdate(u.cars, i, v.cars[i]);
    FireKeepsInv(u, i);
    assert [i, i, i][1..] == [i, i] && [i, i][1..] == [i] && [i][1..] == [];
    RunOne(u, i);
    assert CanRun(t, [i, i]);
  }

  /** Some car can always make progress, unless all have left. */
  lemma Progress(s: State) returns (sched: seq<nat>)
    requires Inv(s) && 1 <= s.limit <= 3 && !AllDone(s)
    ensures CanRun(s, sched) && Work(Run(s, sched).cars) < Work(s.cars)
  {
    if i :| 0 <= i < |s.cars| && s.cars[i].pc != Want && Enabled(s, i) {
      RunOne(s, i);
      FireWork(s, i);
      sched := [i];
    } else {
      NobodyCrossing(s);
      var i :| 0 <= i < |s.cars| && s.cars[i].pc != Done;
      LetIn(s, i);
      sched := [i, i, i];
    }
  }

  /** If only cars outside the gate can move, nobody is inside and the gate is open. */
  lemma NobodyCrossing(s: State)
    requires Inv(s) && 1 <= s.limit <= 3
    requires forall i :: 0 <= i < |s.cars| && s.cars[i].pc != Want ==> !Enabled(s, i)
    ensures s.gate == 1 && s.carcount < s.limit
    ensures forall i :: 0 <= i < |s.cars| ==> s.cars[i].pc == Want || s.cars[i].pc == Done
  {
    assert GateHolders(s) == {};
    if i :| 0 <= i < |s.cars| && s.cars[i].pc.Cross? {
      RingOfFour(s, i);
      assert false;
    }
    assert Admitted(s) == {};
  }

  /** Deadlock freedom: from every reachable state some continuation takes every car home. */
  lemma {:induction false} EveryoneCanFinish(s: State) returns (sched: seq<nat>)
    requires Inv(s) && 1 <= s.limit <= 3
    ensures CanRun(s, sched) && AllDone(Run(s, sched)) && Inv(Run(s, sched))
    decreases Work(s.cars)
  {
    if AllDone(s) {
      sched := [];
    } else {
      var first := Progress(s);
      RunKeepsInv(s, first);
      var rest := EveryoneCanFinish(Run(s, first));
      RunAppend(s, first, rest);
      sched := first + rest;
      RunKeepsInv(s, sched);
    }
  }

  /** The same from the start, over every run so far: nothing a schedule does can wedge the cars. */
  lemma NoRunDeadlocks(s: State, sched: seq<nat>) returns (more: seq<nat>)
    requires Init(s) && s.limit == GATE_LIMIT && CanRun(s, sched)
    ensures CanRun(s, sched + more) && AllDone(Run(s, sched + more))
    ensures Run(s, sched + more).gate == 1 && Run(s, sched + more).carcount == 0
    ensures ValidCars(Run(s, sched + more)) && forall r :: Run(s, sched + more).sem[r] == 1
  {
    InitInv(s);
    RunKeepsInv(s, sched);
    more := EveryoneCanFinish(Run(s, sched));
    RunAppend(s, sched, more);
    var t := Run(s, sched + more);
    assert GateHolders(t) == {} && Admitted(t) == {};
    forall r ensures t.sem[r] == 1 {
      assert Holders(t, r) == {};
    }
  }

  // ---------------------------------------------------------------------------------------
  // Three is the largest gate that is safe

  /** A car going straight, just after it has taken its first region. */
  function Entered(s: State, i: nat): State
    requires i < |s.cars| && s.cars[i].dir < 4
    requires Route(s.cars[i].dir, s.cars[i].dest)[0] in s.sem && s.sem[Route(s.cars[i].dir, s.cars[i].dest)[0]] > 0
  {
    var r := Route(s.cars[i].dir, s.cars[i].dest)[0];
    Goto(s.(carcount := s.carcount + 1, sem := s.sem[r := s.sem[r] - 1]), i, Cross(3))
  }

  lemma RunThree(s: State, i: nat)
    requires ValidCars(s) && Enabled(s, i)
    requires ValidCars(Fire(s, i)) && Enabled(Fire(s, i), i)
    requires ValidCars(Fire(Fire(s, i), i)) && Enabled(Fire(Fire(s, i), i), i)
    ensures CanRun(s, [i, i, i]) && Run(s, [i, i, i]) == Fire(Fire(Fire(s, i), i), i)
  {
    var t := Fire(s, i);
    RunOne(Fire(t, i), i);
    assert [i, i][1..] == [i] && [i, i, i][1..] == [i, i];
    assert CanRun(t, [i, i]);
  }

  lemma PassGate(s: State, i: nat)
    requires ValidCars(s) && i < |s.cars| && s.cars[i].pc == Want && s.gate == 1 && s.carcount < s.limit
    ensures CanRun(s, [i, i, i])
    ensures Run(s, [i, i, i]) == Goto(s.(carcount := s.carcount + 1), i, Cross(0))
    ensures ValidCars(Goto(s.(carcount := s.carcount + 1), i, Cross(0)))
  {
    FireKeepsValid(s, i);
    FireKeepsValid(Fire(s, i), i);
    FireKeepsValid(Fire(Fire(s, i), i), i);
    RunThree(s, i);
  }

  /** The first three operations of going straight: announce, take the first region, announce. */
  lemma StraightOps(c: Car)
    requires ValidCar(c) && c.dest == (c.dir + 2) % 4
    ensures c.dir < 4 && |Ops(c)| == 8 && Ops(c)[0].Msg? && Ops(c)[1] == P(Route(c.dir, c.dest)[0]) && Ops(c)[2].Msg?
  {
  }

  lemma CrossOne(s: State, i: nat, k: nat, t: State)
    requires ValidCars(s) && i < |s.cars| && s.cars[i].pc == Cross(k) && k + 1 < |Ops(s.cars[i])|
    requires match Ops(s.cars[i])[k]
             case Msg(_, _) => t == Goto(s, i, Cross(k + 1))
             case P(r) => s.sem[r] > 0 && t == Goto(s.(sem := s.sem[r := s.sem[r] - 1]), i, Cross(k + 1))
             case V(r) => false
    ensures Enabled(s, i) && Fire(s, i) == t && ValidCars(t)
  {
    FireKeepsValid(s, i);
  }

  lemma TakeFirst(s: State, i: nat)
    requires ValidCars(s) && i < |s.cars| && s.cars[i].pc == Cross(0) && s.cars[i].dest == (s.cars[i].dir + 2) % 4
    requires s.sem[Route(s.cars[i].dir, s.cars[i].dest)[0]] > 0
    ensures CanRun(s, [i, i, i]) && Run(s, [i, i, i]) == Entered(s.(carcount := s.carcount - 1), i)
  {
    hide Script, Fire, Run, CanRun, Enabled, Route, ValidCar;
    var c := s.cars[i];
    StraightOps(c);
    var r := Ops(c)[1].r;
    var t := Goto(s, i, Cross(1));
    CrossOne(s, i, 0, t);
    var u := Goto(t.(sem := t.sem[r := t.sem[r] - 1]), i, Cross(2));
    SameOps(c, t.cars[i]);
    CrossOne(t, i, 1, u);
    SameOps(c, u.cars[i]);
    var v := Goto(u, i, Cross(3));
    CrossOne(u, i, 2, v);
    RunThree(s, i);
    EnteredIs(s, i, v);
  }

  lemma SameOps(c: Car, d: Car)
    requires d.dir == c.dir && d.dest == c.dest
    ensures Ops(d) == Ops(c)
  {
  }

  lemma EnteredIs(s: State, i: nat, v: State)
    requires i < |s.cars| && s.cars[i].dir < 4 && Route(s.cars[i].dir, s.cars[i].dest)[0] in s.sem
    requires s.sem[Route(s.cars[i].dir, s.cars[i].dest)[0]] > 0
    requires var r := Route(s.cars[i].dir, s.cars[i].dest)[0];
             var t := Goto(s, i, Cross(1));
             v == Goto(Goto(t.(sem := t.sem[r := t.sem[r] - 1]), i, Cross(2)), i, Cross(3))
    ensures Entered(s.(carcount := s.carcount - 1), i) == v
  {
    hide Route;
    assert v.cars == Entered(s.(carcount := s.carcount - 1), i).cars;
  }

  function Six(i: nat): seq<nat> {
    [i, i, i] + [i, i, i]
  }

  lemma DriveIn(s: State, i: nat, t: State)
    requires ValidCars(s) && i < |s.cars| && s.cars[i].pc == Want && s.cars[i].dest == (s.cars[i].dir + 2) % 4
    requires s.gate == 1 && s.carcount < s.limit && s.sem[Route(s.cars[i].dir, s.cars[i].dest)[0]] > 0
    requires t == Entered(s, i)
    ensures CanRun(s, Six(i)) && Run(s, Six(i)) == t
  {
    hide Script, Fire, Run, CanRun, Enabled;
    var m := Goto(s.(carcount := s.carcount + 1), i, Cross(0));
    PassGate(s, i);
    TakeFirst(m, i);
    RunAppend(s, [i, i, i], [i, i, i]);
    assert Entered(m.(carcount := m.carcount - 1), i).cars == t.cars;
  }

  /** The cars and semaphores once the first `n` of four cars going straight have entered. */
  function FourCarsIn(n: nat): State
    requires n <= 4
  {
    State(4, 1, n,
          map[NW := if n > 0 then 0 else 1, NE := if n > 1 then 0 else 1,
              SE := if n > 2 then 0 else 1, SW := if n > 3 then 0 else 1],
          [Car(0, 2, if n > 0 then Cross(3) else Want), Car(1, 3, if n > 1 then Cross(3) else Want),
           Car(2, 0, if n > 2 then Cross(3) else Want), Car(3, 1, if n > 3 then Cross(3) else Want)])
  }

  lemma FourCarsValid(n: nat)
    requires n <= 4
    ensures ValidCars(FourCarsIn(n))
  {
    forall r: Region ensures r in FourCarsIn(n).sem {
      match r case NW => case SW => case SE => case NE =>
    }
  }

  lemma NextCarIn(n: nat)
    requires n < 4
    ensures CanRun(FourCarsIn(n), Six(n)) && Run(FourCarsIn(n), Six(n)) == FourCarsIn(n + 1)
  {
    FourCarsValid(n);
    var s := FourCarsIn(n);
    assert Route(s.cars[n].dir, s.cars[n].dest)[0] == [NW, NE, SE, SW][n];
    DriveIn(s, n, FourCarsIn(n + 1));
  }

  lemma FourCarsWedged(i: nat)
    requires ValidCars(FourCarsIn(4))
    ensures !Enabled(FourCarsIn(4), i)
  {
    var s := FourCarsIn(4);
    if i < 4 {
      assert Ops(s.cars[i])[3] == P([SW, NW, NE, SE][i]);
    }
  }

  function FourSchedule(n: nat): seq<nat> {
    if n == 0 then [] else FourSchedule(n - 1) + Six(n - 1)
  }

  lemma {:induction false} FourCarsRun(n: nat)
    requires n <= 4
    ensures CanRun(FourCarsIn(0), FourSchedule(n)) && Run(FourCarsIn(0), FourSchedule(n)) == FourCarsIn(n)
  {
    if n > 0 {
      FourCarsRun(n - 1);
      NextCarIn(n - 1);
      RunAppend(FourCarsIn(0), FourSchedule(n - 1), Six(n - 1));
    }
  }

  lemma FourCarsStart()
    ensures Init(FourCarsIn(0)) && FourCarsIn(0).limit == 4
    ensures !AllDone(FourCarsIn(4))
  {
    assert FourCarsIn(4).cars[0].pc != Done;
  }

  /** With a gate of four, four cars going straight can reach a state where none can ever move. */
  lemma FourDeadlock() returns (s: State, sched: seq<nat>)
    ensures Init(s) && s.limit == 4 && CanRun(s, sched) && ValidCars(Run(s, sched))
    ensures !AllDone(Run(s, sched)) && forall i: nat :: !Enabled(Run(s, sched), i)
  {
    s, sched := FourCarsIn(0), FourSchedule(4);
    FourCarsStart();
    FourCarsRun(4);
    FourCarsValid(4);
    forall i: nat ensures !Enabled(FourCarsIn(4), i) {
      FourCarsWedged(i);
    }
  }
}
