/** Threads that share memory between two barriers, under every interleaving of their steps. */
module Interleaving {

  /** Position `pos` of vector `vec`. */
  datatype Addr = Addr(vec: nat, pos: nat)

  /** One step of a thread: v[at] = value, v[at] *= value, v[at] += value, v[at] += v[from]. */
  datatype Op =
    | Set(at: Addr, value: real)
    | Scale(at: Addr, value: real)
    | Add(at: Addr, value: real)
    | Gather(at: Addr, from: Addr)

  type Memory = seq<seq<real>>

  function At(m: Memory, a: Addr): real {
    if a.vec < |m| && a.pos < |m[a.vec]| then m[a.vec][a.pos] else 0.0
  }

  function Put(m: Memory, a: Addr, v: real): Memory {
    if a.vec < |m| && a.pos < |m[a.vec]| then m[a.vec := m[a.vec][a.pos := v]] else m
  }

  predicate Has(m: Memory, a: Addr) { a.vec < |m| && a.pos < |m[a.vec]| }

  function Times(a: real, b: real): real { a * b }

  function NewValue(m: Memory, op: Op): real {
    match op
    case Set(_, v) => v
    case Scale(a, v) => Times(At(m, a), v)
    case Add(a, v) => At(m, a) + v
    case Gather(a, b) => At(m, a) + At(m, b)
  }

  function Exec(m: Memory, op: Op): Memory { Put(m, op.at, NewValue(m, op)) }

  /** The step reads or writes the address. */
  predicate Touches(op: Op, a: Addr) { op.at == a || (op.Gather? && op.from == a) }

  /** A thread on its own. */
  function Alone(m: Memory, ops: seq<Op>): Memory {
    if ops == [] then m else Exec(Alone(m, ops[..|ops| - 1]), ops[|ops| - 1])
  }

  // ----- Schedules -----

  /** Number of steps thread i has taken. */
  function Taken(sched: seq<nat>, i: nat): nat {
    if sched == [] then 0 else Taken(sched[..|sched| - 1], i) + if sched[|sched| - 1] == i then 1 else 0
  }

  /** The schedule picks a thread that is not done each time. */
  predicate Feasible(progs: seq<seq<Op>>, sched: seq<nat>) {
    sched == [] ||
    (var t, before := sched[|sched| - 1], sched[..|sched| - 1];
     Feasible(progs, before) && t < |progs| && Taken(before, t) < |progs[t]|)
  }

  /** All threads are done. */
  predicate Complete(progs: seq<seq<Op>>, sched: seq<nat>) {
    Feasible(progs, sched) && forall i :: 0 <= i < |progs| ==> Taken(sched, i) == |progs[i]|
  }

  /** The threads together, in the order of the schedule. */
  function Mixed(m: Memory, progs: seq<seq<Op>>, sched: seq<nat>): Memory
    requires Feasible(progs, sched)
  {
    if sched == [] then m
    else
      var t, before := sched[|sched| - 1], sched[..|sched| - 1];
      Exec(Mixed(m, progs, before), progs[t][Taken(before, t)])
  }

  predicate TouchedBy(prog: seq<Op>, a: Addr) { exists q :: 0 <= q < |prog| && Touches(prog[q], a) }

  predicate WrittenBy(prog: seq<Op>, a: Addr) { exists q :: 0 <= q < |prog| && prog[q].at == a }

  /** No thread reads or writes what another one writes. */
  ghost predicate Apart(progs: seq<seq<Op>>) {
    forall i, j, a {:trigger TouchedBy(progs[i], a), WrittenBy(progs[j], a)} ::
      0 <= i < |progs| && 0 <= j < |progs| && i != j && TouchedBy(progs[i], a) ==> !WrittenBy(progs[j], a)
  }

  // ----- Memory -----

  lemma {:induction false} AtPut(m: Memory, a: Addr, v: real, b: Addr)
    ensures At(Put(m, a, v), b) == if a == b && Has(m, a) then v else At(m, b)
    ensures Has(Put(m, a, v), b) == Has(m, b)
  {
  }

  lemma {:induction false} AtExec(m: Memory, op: Op, b: Addr)
    ensures At(Exec(m, op), b) == if op.at == b && Has(m, b) then NewValue(m, op) else At(m, b)
    ensures Has(Exec(m, op), b) == Has(m, b)
  {
    hide Put, At, Has, NewValue;
    AtPut(m, op.at, NewValue(m, op), b);
  }

  lemma {:induction false} AloneHas(m: Memory, ops: seq<Op>, a: Addr)
    ensures Has(Alone(m, ops), a) == Has(m, a)
  {
    if ops != [] {
      AloneHas(m, ops[..|ops| - 1], a);
      AtExec(Alone(m, ops[..|ops| - 1]), ops[|ops| - 1], a);
    }
  }

  lemma {:induction false} MixedHas(m: Memory, progs: seq<seq<Op>>, sched: seq<nat>, a: Addr)
    requires Feasible(progs, sched)
    ensures Has(Mixed(m, progs, sched), a) == Has(m, a)
  {
    if sched != [] {
      var t, before := sched[|sched| - 1], sched[..|sched| - 1];
      MixedHas(m, progs, before, a);
      AtExec(Mixed(m, progs, before), progs[t][Taken(before, t)], a);
    }
  }

  lemma {:induction false} AloneSame(m: Memory, ops: seq<Op>, a: Addr)
    requires !WrittenBy(ops, a)
    ensures At(Alone(m, ops), a) == At(m, a)
  {
    if ops != [] {
      var k := |ops| - 1;
      hide At, Has, Exec;
      assert forall q :: 0 <= q < k ==> ops[..k][q] == ops[q];
      AloneSame(m, ops[..k], a);
      assert ops[k].at != a;
      AtExec(Alone(m, ops[..k]), ops[k], a);
    }
  }

  lemma {:induction false} AloneConcat(m: Memory, a: seq<Op>, b: seq<Op>)
    ensures Alone(m, a + b) == Alone(Alone(m, a), b)
    decreases |b|
  {
    if b == [] {
      assert a + b == a;
    } else {
      hide Exec;
      assert (a + b)[..|a + b| - 1] == a + b[..|b| - 1];
      AloneConcat(m, a, b[..|b| - 1]);
    }
  }

  // ----- Interleaving -----

  /** What a thread sees is what it would see on its own. */
  lemma {:induction false} SeesItself(m: Memory, progs: seq<seq<Op>>, sched: seq<nat>, i: nat, a: Addr)
    requires Feasible(progs, sched) && Apart(progs) && i < |progs| && TouchedBy(progs[i], a)
    ensures Taken(sched, i) <= |progs[i]|
    ensures At(Mixed(m, progs, sched), a) == At(Alone(m, progs[i][..Taken(sched, i)]), a)
    decreases |sched|
  {
    if sched != [] {
      hide At, Has, NewValue, Apart, TouchedBy, WrittenBy, Exec;
      var t, before := sched[|sched| - 1], sched[..|sched| - 1];
      var k, now := Taken(before, t), Mixed(m, progs, before);
      var op := progs[t][k];
      SeesItself(m, progs, before, i, a);
      MixedHas(m, progs, before, a);
      AtExec(now, op, a);
      if t == i {
        var own := Alone(m, progs[i][..k]);
        assert progs[i][..k + 1][..k] == progs[i][..k];
        AloneHas(m, progs[i][..k], a);
        AtExec(own, op, a);
        Own(progs[i], k);
        SeesItself(m, progs, before, i, op.at);
        if op.Gather? {
          SeesItself(m, progs, before, i, op.from);
        }
        SameNew(now, own, op);
      } else {
        Foreign(progs, i, t, k, a);
      }
    }
  }

  lemma {:induction false} Own(prog: seq<Op>, k: nat)
    requires k < |prog|
    ensures TouchedBy(prog, prog[k].at) && (prog[k].Gather? ==> TouchedBy(prog, prog[k].from))
    ensures WrittenBy(prog, prog[k].at)
  {
    assert Touches(prog[k], prog[k].at);
    assert prog[k].Gather? ==> Touches(prog[k], prog[k].from);
  }

  lemma {:induction false} SameNew(m: Memory, m': Memory, op: Op)
    requires At(m, op.at) == At(m', op.at) && (op.Gather? ==> At(m, op.from) == At(m', op.from))
    ensures NewValue(m, op) == NewValue(m', op)
  {
  }

  lemma {:induction false} Foreign(progs: seq<seq<Op>>, i: nat, t: nat, k: nat, a: Addr)
    requires Apart(progs) && i < |progs| && t < |progs| && i != t && k < |progs[t]| && TouchedBy(progs[i], a)
    ensures progs[t][k].at != a
  {
    hide TouchedBy;
    assert !WrittenBy(progs[t], a);
  }

  /** What nobody writes stays. */
  lemma {:induction false} NobodyWrites(m: Memory, progs: seq<seq<Op>>, sched: seq<nat>, a: Addr)
    requires Feasible(progs, sched) && forall i :: 0 <= i < |progs| ==> !WrittenBy(progs[i], a)
    ensures At(Mixed(m, progs, sched), a) == At(m, a)
    decreases |sched|
  {
    if sched != [] {
      hide At, Has, NewValue, WrittenBy, Exec;
      var t, before := sched[|sched| - 1], sched[..|sched| - 1];
      NobodyWrites(m, progs, before, a);
      Own(progs[t], Taken(before, t));
      AtExec(Mixed(m, progs, before), progs[t][Taken(before, t)], a);
    }
  }

  /** When all threads are done, an address that only thread i writes holds what thread i on
      its own would have left there, whatever the order of the steps. */
  lemma {:induction false} OwnerDecides(m: Memory, progs: seq<seq<Op>>, sched: seq<nat>, i: nat, a: Addr)
    requires Complete(progs, sched) && Apart(progs) && i < |progs|
    requires forall j :: 0 <= j < |progs| && j != i ==> !WrittenBy(progs[j], a)
    ensures At(Mixed(m, progs, sched), a) == At(Alone(m, progs[i]), a)
  {
    hide At, WrittenBy, Mixed, Alone, Feasible, Taken, Apart, TouchedBy;
    if TouchedBy(progs[i], a) {
      SeesItself(m, progs, sched, i, a);
      assert progs[i][..|progs[i]|] == progs[i];
    } else {
      WrittenTouched(progs[i], a);
      NobodyWrites(m, progs, sched, a);
      AloneSame(m, progs[i], a);
    }
  }

  lemma {:induction false} WrittenTouched(prog: seq<Op>, a: Addr)
    ensures WrittenBy(prog, a) ==> TouchedBy(prog, a)
  {
    if WrittenBy(prog, a) {
      var q :| 0 <= q < |prog| && prog[q].at == a;
      assert Touches(prog[q], a);
    }
  }

  /** Threads that are apart leave the same memory in every order of their steps. */
  lemma {:induction false} SameOutcome(m: Memory, progs: seq<seq<Op>>, s1: seq<nat>, s2: seq<nat>, a: Addr)
    requires Apart(progs) && Complete(progs, s1) && Complete(progs, s2)
    ensures At(Mixed(m, progs, s1), a) == At(Mixed(m, progs, s2), a)
  {
    hide At, WrittenBy, Mixed, Alone, Feasible, Taken, TouchedBy;
    if i :| 0 <= i < |progs| && WrittenBy(progs[i], a) {
      WrittenTouched(progs[i], a);
      assert forall j :: 0 <= j < |progs| && j != i ==> !WrittenBy(progs[j], a);
      OwnerDecides(m, progs, s1, i, a);
      OwnerDecides(m, progs, s2, i, a);
    } else {
      NobodyWrites(m, progs, s1, a);
      NobodyWrites(m, progs, s2, a);
    }
  }

  // ----- One schedule: thread after thread -----

  /** The threads before k are done, and thread k has taken q steps. */
  function Lap(progs: seq<seq<Op>>, k: nat, q: nat): seq<nat>
    requires k <= |progs| && (q > 0 ==> k < |progs| && q <= |progs[k]|)
    decreases k, q
  {
    if q > 0 then Lap(progs, k, q - 1) + [k]
    else if k > 0 then Lap(progs, k - 1, |progs[k - 1]|)
    else []
  }

  /** The programs one after the other. */
  function Folded(m: Memory, progs: seq<seq<Op>>): Memory {
    if progs == [] then m else Alone(Folded(m, progs[..|progs| - 1]), progs[|progs| - 1])
  }

  lemma {:induction false} LapTaken(progs: seq<seq<Op>>, k: nat, q: nat, i: nat)
    requires k <= |progs| && (q > 0 ==> k < |progs| && q <= |progs[k]|)
    ensures Taken(Lap(progs, k, q), i) == if i < k then |progs[i]| else if i == k then q else 0
    decreases k, q
  {
    if q > 0 {
      LapTaken(progs, k, q - 1, i);
      LapLast(progs, k, q);
    } else if k > 0 {
      LapTaken(progs, k - 1, |progs[k - 1]|, i);
    }
  }

  lemma {:induction false} LapLast(progs: seq<seq<Op>>, k: nat, q: nat)
    requires k < |progs| && 0 < q <= |progs[k]|
    ensures var lap := Lap(progs, k, q); lap != [] && lap[|lap| - 1] == k && lap[..|lap| - 1] == Lap(progs, k, q - 1)
  {
  }

  lemma {:induction false} LapIs(m: Memory, progs: seq<seq<Op>>, k: nat, q: nat)
    requires k <= |progs| && (q > 0 ==> k < |progs| && q <= |progs[k]|)
    ensures Feasible(progs, Lap(progs, k, q))
    ensures Mixed(m, progs, Lap(progs, k, q))
         == if q > 0 then Alone(Folded(m, progs[..k]), progs[k][..q]) else Folded(m, progs[..k])
    decreases k, q
  {
    hide Exec, Taken, Alone, Folded;
    if q > 0 {
      hide Lap;
      LapIs(m, progs, k, q - 1);
      LapTaken(progs, k, q - 1, k);
      LapLast(progs, k, q);
      AloneFirst(Folded(m, progs[..k]), progs[k]);
      AloneNext(Folded(m, progs[..k]), progs[k], q - 1);
    } else if k > 0 {
      hide Mixed, Feasible;
      LapIs(m, progs, k - 1, |progs[k - 1]|);
      AloneFirst(Folded(m, progs[..k - 1]), progs[k - 1]);
      FoldedNext(m, progs, k - 1);
    } else {
      assert Folded(m, progs[..0]) == m by { FoldedFirst(m, progs); }
    }
  }

  lemma {:induction false} AloneFirst(m: Memory, ops: seq<Op>)
    ensures Alone(m, ops[..0]) == m && ops[..|ops|] == ops
  {
  }

  lemma {:induction false} AloneNext(m: Memory, ops: seq<Op>, i: nat)
    requires i < |ops|
    ensures Alone(m, ops[..i + 1]) == Exec(Alone(m, ops[..i]), ops[i])
  {
    assert ops[..i + 1][..i] == ops[..i];
  }

  lemma {:induction false} FoldedFirst(m: Memory, progs: seq<seq<Op>>)
    ensures Folded(m, progs[..0]) == m
  {
  }

  lemma {:induction false} FoldedNext(m: Memory, progs: seq<seq<Op>>, i: nat)
    requires i < |progs|
    ensures Folded(m, progs[..i + 1]) == Alone(Folded(m, progs[..i]), progs[i])
  {
    assert progs[..i + 1][..i] == progs[..i];
  }

  lemma {:induction false} ThreadAfterThread(m: Memory, progs: seq<seq<Op>>)
    ensures Complete(progs, Lap(progs, |progs|, 0))
    ensures Mixed(m, progs, Lap(progs, |progs|, 0)) == Folded(m, progs)
  {
    LapIs(m, progs, |progs|, 0);
    forall i | 0 <= i < |progs| ensures Taken(Lap(progs, |progs|, 0), i) == |progs[i]| {
      LapTaken(progs, |progs|, 0, i);
    }
    assert progs[..|progs|] == progs;
  }

  lemma {:induction false} FoldedOneMore(m: Memory, progs: seq<seq<Op>>, prog: seq<Op>)
    ensures Folded(m, progs + [prog]) == Alone(Folded(m, progs), prog)
  {
    assert (progs + [prog])[..|progs|] == progs;
  }

  /** If thread after thread leaves `after`, every other order of the steps does. */
  lemma {:induction false} AnyOrder(m: Memory, progs: seq<seq<Op>>, after: Memory, sched: seq<nat>, a: Addr)
    requires Apart(progs) && Folded(m, progs) == after && Complete(progs, sched)
    ensures At(Mixed(m, progs, sched), a) == At(after, a)
  {
    hide At, Mixed, Folded, Complete, Apart, Lap;
    ThreadAfterThread(m, progs);
    SameOutcome(m, progs, sched, Lap(progs, |progs|, 0), a);
  }
}
