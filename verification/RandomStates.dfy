/**
 Several states of the C library's random number generator, and any sequence of draws and
 switches between them.
 */
module RandomStates {
  import opened Generators

  datatype Op = Draw | Switch(j: nat)

  /** The generator each state holds, the state in use, and the rear pointer its header remembers. */
  datatype Multi = Multi(gens: seq<Gen>, cur: nat, mark: nat)

  predicate MultiOk(m: Multi) {
    m.cur < |m.gens| && forall i :: 0 <= i < |m.gens| ==> GenOk(m.gens[i])
  }

  predicate OpOk(m: Multi, op: Op) {
    op.Switch? ==> op.j < |m.gens|
  }

  /** The effect of switching to the state in use: the rear pointer and the one in the header change places. */
  function Reset(g: Gen, mark: nat): Gen {
    if g.typ == 0 then g else g.(rear := mark)
  }

  function Do(m: Multi, op: Op): Multi
    requires MultiOk(m) && OpOk(m, op)
  {
    match op
    case Draw => m.(gens := m.gens[m.cur := Drawn(m.gens[m.cur])])
    case Switch(j) =>
      if j != m.cur then m.(cur := j, mark := m.gens[j].rear)
      else m.(gens := m.gens[j := Reset(m.gens[j], m.mark)], mark := m.gens[j].rear)
  }

  /** The number an operation gives, if it draws one. */
  function Out(m: Multi, op: Op): seq<nat>
    requires MultiOk(m)
  {
    if op.Draw? then [Value(m.gens[m.cur])] else []
  }

  // ---------------------------------------------------------------------------------------
  // The states in memory

  ghost predicate HeaderIs(g: Random, mark: nat)
    reads g, g.cur
  {
    && g.cur.Length >= 1 && Saved(g.cur[..]) && Rem(Signed(g.cur[0])) == g.typ
    && (g.typ != 0 ==> mark == Signed(g.cur[0]) / MAX_TYPES)
  }

  ghost predicate Distinct(states: seq<array<nat>>) {
    forall i, j :: 0 <= i < j < |states| ==> states[i] != states[j]
  }

  ghost predicate Holds(a: array<nat>, g: Gen)
    reads a
  {
    Saved(a[..]) && Restored(a[..]) == g
  }

  /** `m` is what the states hold: the one in use in the generator, the others in their arrays. */
  ghost predicate Family(g: Random, states: seq<array<nat>>, m: Multi)
    reads g, g.cur, states
  {
    && g.Valid() && Distinct(states) && |states| == |m.gens| && m.cur < |states| && g.cur == states[m.cur]
    && g.G() == m.gens[m.cur] && HeaderIs(g, m.mark)
    && forall i :: 0 <= i < |states| && i != m.cur ==> Holds(states[i], m.gens[i])
  }

  lemma FamilyOk(g: Random, states: seq<array<nat>>, m: Multi)
    requires Family(g, states, m)
    ensures MultiOk(m)
  {
    hide Saved, GenOk;
    forall i | 0 <= i < |m.gens| ensures GenOk(m.gens[i]) {
      if i != m.cur {
        RestoredOk(states[i][..]);
      }
    }
  }

  method DoDraw(g: Random, states: seq<array<nat>>, ghost m: Multi) returns (i: nat)
    requires Family(g, states, m) && MultiOk(m)
    modifies g, g.cur
    ensures Family(g, states, Do(m, Draw)) && Out(m, Draw) == [i] && g.cur == old(g.cur)
  {
    hide Saved, GenOk, Drawn, Value;
    ghost var was := g.cur[..];
    i := g.Next();
    DrawnOk(m.gens[m.cur]);
    NewTable(was, g.cur[..]);
    assert forall k :: 0 <= k < |states| && k != m.cur ==> states[k] != g.cur;
  }

  lemma DrawnOk(g: Gen)
    requires GenOk(g)
    ensures Words(Drawn(g).tbl)
  {
  }

  method DoSwitch(g: Random, states: seq<array<nat>>, j: nat, ghost m: Multi)
    requires Family(g, states, m) && MultiOk(m) && j < |states|
    modifies g, g.cur
    ensures Family(g, states, Do(m, Switch(j))) && g.cur == states[j]
  {
    hide GenOk, Rem, Signed;
    ghost var g0 := g.G();
    SaveRestore(g0);
    ghost var mine := g.cur;
    assert forall k :: 0 <= k < |states| && k != m.cur ==> states[k] != mine;
    ghost var arg := states[j][..];
    HeaderOf(arg);
    var ok := g.SetState(states[j]);
    assert mine[..] == [Header(g0)] + g0.tbl;
    if j != m.cur {
      assert states[j][..] == arg;
    } else {
      HeaderOf(mine[..]);
    }
  }

  /** The parts of what is restored. */
  lemma HeaderOf(a: seq<nat>)
    requires Saved(a)
    ensures Restored(a).typ == Rem(Signed(a[0])) && Restored(a).tbl == a[1..]
    ensures Restored(a).typ != 0 ==> Restored(a).rear == Signed(a[0]) / MAX_TYPES
    ensures Restored(a).typ == 0 ==> Restored(a).rear == 0
  {
  }

  // ---------------------------------------------------------------------------------------
  // Runs

  predicate Fine(m: Multi) {
    MultiOk(m) && (m.gens[m.cur].typ != 0 ==> m.mark < Deg(m.gens[m.cur].typ))
  }

  ghost predicate AllOk(m: Multi, ops: seq<Op>) {
    forall k :: 0 <= k < |ops| ==> OpOk(m, ops[k])
  }

  lemma DoFine(m: Multi, op: Op)
    requires Fine(m) && OpOk(m, op)
    ensures Fine(Do(m, op)) && |Do(m, op).gens| == |m.gens|
  {
    hide Deg;
  }

  function RunTo(m: Multi, ops: seq<Op>): (n: Multi)
    requires Fine(m) && AllOk(m, ops)
    ensures Fine(n) && |n.gens| == |m.gens|
  {
    if ops == [] then m
    else
      var n := RunTo(m, ops[..|ops| - 1]);
      DoFine(n, ops[|ops| - 1]);
      Do(n, ops[|ops| - 1])
  }

  /** The numbers drawn while state `i` was in use. */
  function Numbers(m: Multi, ops: seq<Op>, i: nat): seq<nat>
    requires Fine(m) && AllOk(m, ops)
  {
    if ops == [] then []
    else
      var n := RunTo(m, ops[..|ops| - 1]);
      Numbers(m, ops[..|ops| - 1], i) + if n.cur == i then Out(n, ops[|ops| - 1]) else []
  }

  /** No switch is to the state in use. */
  ghost predicate NoReset(m: Multi, ops: seq<Op>)
    requires Fine(m) && AllOk(m, ops)
  {
    forall k :: 0 <= k < |ops| && ops[k].Switch? ==> RunTo(m, ops[..k]).cur != ops[k].j
  }

  /** The first `n` numbers of a generator left to itself. */
  function Stream(g: Gen, n: nat): (s: seq<nat>)
    requires GenOk(g)
    ensures |s| == n
  {
    if n == 0 then [] else Stream(g, n - 1) + [Value(DrawnBy(g, n - 1))]
  }

  /**
   Whatever else is drawn and switched to in between, the numbers drawn from a state are those its
   generator gives alone, and its generator stands where that many draws take it.
   */
  lemma {:induction false} Independent(m: Multi, ops: seq<Op>, i: nat)
    requires Fine(m) && AllOk(m, ops) && NoReset(m, ops) && i < |m.gens|
    ensures var n := |Numbers(m, ops, i)|;
            Numbers(m, ops, i) == Stream(m.gens[i], n) && RunTo(m, ops).gens[i] == DrawnBy(m.gens[i], n)
  {
    hide GenOk, Deg, Do, Out, RunTo, Numbers, Stream, DrawnBy;
    if ops == [] {
      Start(m);
      StreamStarts(m.gens[i]);
    } else {
      var r, op := ops[..|ops| - 1], ops[|ops| - 1];
      assert ops == r + [op];
      assert NoReset(m, r) by {
        forall k | 0 <= k < |r| && r[k].Switch? ensures RunTo(m, r[..k]).cur != r[k].j {
          assert r[..k] == ops[..k] && r[k] == ops[k];
        }
      }
      Independent(m, r, i);
      RunMore(m, r, op);
      assert ops[..|r|] == r;
      NextNumber(RunTo(m, r), op, i, m.gens[i], |Numbers(m, r, i)|);
      var n := |Numbers(m, r, i)|;
      var out := if RunTo(m, r).cur == i then Out(RunTo(m, r), op) else [];
      assert |Numbers(m, ops, i)| == n + |out|;
    }
  }

  lemma StreamStarts(g: Gen)
    requires GenOk(g)
    ensures Stream(g, 0) == [] && DrawnBy(g, 0) == g
  {
  }

  /** One operation draws the next number of a state's stream, or leaves it alone. */
  lemma NextNumber(m: Multi, op: Op, i: nat, g: Gen, n: nat)
    requires Fine(m) && OpOk(m, op) && i < |m.gens| && GenOk(g) && m.gens[i] == DrawnBy(g, n)
    requires op.Switch? ==> op.j != m.cur
    ensures i < |Do(m, op).gens|
    ensures var out := if m.cur == i then Out(m, op) else [];
            Stream(g, n) + out == Stream(g, n + |out|) && Do(m, op).gens[i] == DrawnBy(g, n + |out|)
  {
    hide GenOk, Drawn, Value, Deg;
    if m.cur == i && op.Draw? {
      assert DrawnBy(g, n + 1) == Drawn(DrawnBy(g, n));
    } else {
      assert Stream(g, n) + [] == Stream(g, n);
    }
  }

  lemma RunMore(m: Multi, ops: seq<Op>, op: Op)
    requires Fine(m) && AllOk(m, ops) && OpOk(m, op)
    ensures AllOk(m, ops + [op]) && OpOk(RunTo(m, ops), op) && RunTo(m, ops + [op]) == Do(RunTo(m, ops), op)
    ensures RunTo(m, ops + [op]).cur == if op.Switch? then op.j else RunTo(m, ops).cur
    ensures forall i: nat ::
              Numbers(m, ops + [op], i) ==
              Numbers(m, ops, i) + if RunTo(m, ops).cur == i then Out(RunTo(m, ops), op) else []
  {
    assert (ops + [op])[..|ops|] == ops;
  }

  lemma FamilyShape(g: Random, states: seq<array<nat>>, m: Multi)
    requires Family(g, states, m)
    ensures m.cur < |states| == |m.gens| && g.cur == states[m.cur] && Fine(m)
  {
    FamilyOk(g, states, m);
  }

  /** The library does just that, for any states in arrays of their own and any draws and switches. */
  method Play(g: Random, states: seq<array<nat>>, c: nat, ops: seq<Op>, ghost m: Multi) returns (drawn: seq<seq<nat>>)
    requires Family(g, states, m) && Fine(m) && c == m.cur && AllOk(m, ops)
    modifies g, states
    ensures Family(g, states, RunTo(m, ops))
    ensures |drawn| == |states| && forall i: nat :: i < |states| ==> drawn[i] == Numbers(m, ops, i)
  {
    hide Family, Fine, Do, Numbers, RunTo, Value;
    var cur: nat := c;
    drawn := seq(|states|, _ => []);
    Start(m);
    FamilyShape(g, states, m);
    for k := 0 to |ops|
      invariant AllOk(m, ops[..k]) && Family(g, states, RunTo(m, ops[..k])) && cur == RunTo(m, ops[..k]).cur
      invariant cur < |states| == |m.gens| && g.cur == states[cur]
      invariant |drawn| == |states| && forall i: nat :: i < |states| ==> drawn[i] == Numbers(m, ops[..k], i)
    {
      ghost var n := RunTo(m, ops[..k]);
      FamilyOk(g, states, n);
      RunMore(m, ops[..k], ops[k]);
      assert ops[..k + 1] == ops[..k] + [ops[k]];
      match ops[k]
      case Draw =>
        var x := DoDraw(g, states, n);
        drawn := drawn[cur := drawn[cur] + [x]];
      case Switch(j) =>
        DoSwitch(g, states, j, n);
        cur := j;
    }
    assert ops[..|ops|] == ops;
  }

  lemma Start(m: Multi)
    requires Fine(m)
    ensures AllOk(m, []) && RunTo(m, []) == m && forall i: nat :: Numbers(m, [], i) == []
  {
  }
}
