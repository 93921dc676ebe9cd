/** The sense-reversing barrier with a futex: N threads, one step for each access to shared memory. */
module Barrier {

  /** Where a thread stands in centralized_barrier.  `Spinning(k)` has k polls left;
      `Parking` is about to call futex_wait and `Asleep` is queued on the futex. */
  datatype Pc =
    | Outside
    | Arriving
    | Resetting
    | Flipping
    | Waking
    | Testing
    | Spinning(k: nat)
    | Parking
    | Asleep

  /** `sense` is the thread's own sense.  `entered` and `left` count its calls and returns;
      the program does not have them. */
  datatype Thread = Thread(pc: Pc, sense: bool, entered: nat, left: nat)

  /** `flips` counts the stores to the global sense, and `last` is the thread that released
      the episode while it is still busy doing so, or -1; the program does not have them. */
  datatype State = State(threads: seq<Thread>, cnt: int, global: bool, flips: nat, last: int)

  const TIMEOUT: nat := 300000

  /** The sense that belongs to a number of episodes: all senses start as true. */
  predicate Sense(n: nat) { n % 2 == 0 }

  function Init(n: nat): State {
    State(seq(n, _ => Thread(Outside, true, 0, 0)), n, true, 0, -1)
  }

  function Put(s: State, i: nat, t: Thread): (r: State)
    requires i < |s.threads|
    ensures |r.threads| == |s.threads|
  {
    s.(threads := s.threads[i := t])
  }

  function WakeAll(ts: seq<Thread>): (r: seq<Thread>)
    ensures |r| == |ts|
  {
    seq(|ts|, i requires 0 <= i < |ts| => if ts[i].pc == Asleep then ts[i].(pc := Testing) else ts[i])
  }

  function Return(t: Thread): Thread { t.(pc := Outside, left := t.left + 1) }

  /** The next step of thread `i`; a sleeping thread has none of its own. */
  function Step(s: State, i: nat): State
    requires i < |s.threads| && s.threads[i].pc != Asleep
  {
    var t := s.threads[i];
    match t.pc
    case Outside => Put(s, i, Thread(Arriving, !t.sense, t.entered + 1, t.left))
    case Arriving =>
      if s.cnt == 1 then Put(s, i, t.(pc := Resetting)).(cnt := 0, last := i)
      else Put(s, i, t.(pc := Testing)).(cnt := s.cnt - 1)
    case Resetting => Put(s, i, t.(pc := Flipping)).(cnt := |s.threads|)
    case Flipping => Put(s, i, t.(pc := Waking)).(global := t.sense, flips := s.flips + 1)
    case Waking => Put(s.(threads := WakeAll(s.threads)), i, Return(t)).(last := -1)
    case Testing => Put(s, i, if t.sense != s.global then t.(pc := Spinning(TIMEOUT)) else Return(t))
    case Spinning(k) =>
      Put(s, i, t.(pc := if k == 0 then Parking else if t.sense == s.global then Testing else Spinning(k - 1)))
    case Parking => Put(s, i, t.(pc := if s.global != t.sense then Asleep else Testing))
  }

  /** A sleeping thread may also return from futex_wait without having been woken. */
  function Interrupt(s: State, i: nat): State
    requires i < |s.threads| && s.threads[i].pc == Asleep
  {
    Put(s, i, s.threads[i].(pc := Testing))
  }

  function Act(s: State, i: nat): State
    requires i < |s.threads|
  {
    if s.threads[i].pc == Asleep then Interrupt(s, i) else Step(s, i)
  }

  ghost predicate Next(s: State, s': State) {
    exists i: nat :: i < |s.threads| && s' == Act(s, i)
  }

  // ----- The invariant -----

  /** The thread has been counted in the episode that has not been released yet. */
  predicate Arrived(t: Thread, flips: nat) { t.entered == flips + 1 && t.pc != Arriving }

  function Count(ts: seq<Thread>, flips: nat): (n: nat)
    ensures n <= |ts|
  {
    if ts == [] then 0 else (if Arrived(ts[0], flips) then 1 else 0) + Count(ts[1..], flips)
  }

  predicate IsLast(t: Thread) { t.pc == Resetting || t.pc == Flipping || t.pc == Waking }

  predicate Waiting(t: Thread) { t.pc == Testing || t.pc.Spinning? || t.pc == Parking || t.pc == Asleep }

  predicate ThreadOk(t: Thread, flips: nat) {
    && t.sense == Sense(t.entered)
    && (t.entered == flips || t.entered == flips + 1)
    && t.entered == (if t.pc == Outside then t.left else t.left + 1)
    && (t.pc == Outside || t.pc == Waking ==> t.entered == flips)
    && (t.pc == Arriving || t.pc == Resetting || t.pc == Flipping ==> t.entered == flips + 1)
  }

  predicate AllOk(s: State) {
    forall i :: 0 <= i < |s.threads| ==> ThreadOk(s.threads[i], s.flips)
  }

  /** At most one thread releases, and while it has not flipped the sense all have arrived. */
  predicate LastOk(s: State) {
    && -1 <= s.last < |s.threads|
    && (forall i :: 0 <= i < |s.threads| ==> (IsLast(s.threads[i]) <==> i == s.last))
    && (s.last >= 0 && s.threads[s.last].pc != Waking ==> Count(s.threads, s.flips) == |s.threads|)
  }

  predicate IsWaking(s: State) { 0 <= s.last < |s.threads| && s.threads[s.last].pc == Waking }

  predicate SleepOk(s: State) {
    forall i :: 0 <= i < |s.threads| && s.threads[i].pc == Asleep && s.threads[i].entered == s.flips ==> IsWaking(s)
  }

  predicate CntOk(s: State) {
    && s.cnt == (if 0 <= s.last < |s.threads| && s.threads[s.last].pc == Flipping then |s.threads|
                 else |s.threads| - Count(s.threads, s.flips))
    && (Count(s.threads, s.flips) == |s.threads| ==> s.last >= 0)
  }

  predicate Inv(s: State) {
    && |s.threads| >= 1 && s.global == Sense(s.flips)
    && AllOk(s) && LastOk(s) && SleepOk(s) && CntOk(s)
  }

  // ----- Counting -----

  lemma {:induction false} CountUpdate(ts: seq<Thread>, i: nat, t: Thread, flips: nat)
    requires i < |ts|
    ensures Count(ts[i := t], flips)
         == Count(ts, flips) - (if Arrived(ts[i], flips) then 1 else 0) + (if Arrived(t, flips) then 1 else 0)
  {
    if i > 0 {
      assert ts[i := t][1..] == ts[1..][i - 1 := t];
      CountUpdate(ts[1..], i - 1, t, flips);
    } else {
      assert ts[0 := t][1..] == ts[1..];
    }
  }

  lemma {:induction false} CountAll(ts: seq<Thread>, flips: nat)
    ensures Count(ts, flips) == |ts| <==> forall i :: 0 <= i < |ts| ==> Arrived(ts[i], flips)
  {
    if ts != [] {
      CountAll(ts[1..], flips);
      assert forall i :: 0 < i < |ts| ==> ts[i] == ts[1..][i - 1];
      assert forall i :: 0 <= i < |ts| - 1 ==> ts[1..][i] == ts[i + 1];
    }
  }

  lemma {:induction false} CountNone(ts: seq<Thread>, flips: nat)
    requires forall i :: 0 <= i < |ts| ==> !Arrived(ts[i], flips)
    ensures Count(ts, flips) == 0
  {
    if ts != [] {
      CountNone(ts[1..], flips);
    }
  }

  lemma {:induction false} CountSame(a: seq<Thread>, b: seq<Thread>, flips: nat)
    requires |a| == |b| && forall i :: 0 <= i < |a| ==> (Arrived(a[i], flips) <==> Arrived(b[i], flips))
    ensures Count(a, flips) == Count(b, flips)
  {
    if a != [] {
      CountSame(a[1..], b[1..], flips);
    }
  }

  // ----- Every step keeps the invariant -----

  lemma {:induction false} InitOk(n: nat)
    requires n >= 1
    ensures Inv(Init(n))
  {
    CountNone(Init(n).threads, 0);
  }

  /** A thread that stays in the barrier without being the last one, or returns. */
  lemma {:induction false} MoveOk(s: State, i: nat, t: Thread)
    requires Inv(s) && i < |s.threads| && Waiting(s.threads[i]) && ThreadOk(t, s.flips)
    requires t.pc == Outside || (Waiting(t) && t.entered == s.threads[i].entered)
    requires t.pc == Outside ==> s.threads[i].entered == s.flips
    requires t.pc == Asleep ==> t.entered == s.flips + 1
    ensures Inv(Put(s, i, t))
  {
    hide Count;
    CountUpdate(s.threads, i, t, s.flips);
  }

  lemma {:induction false} EnterOk(s: State, i: nat)
    requires Inv(s) && i < |s.threads| && s.threads[i].pc == Outside
    ensures Inv(Step(s, i))
  {
    hide Count;
    var t := s.threads[i];
    CountUpdate(s.threads, i, Thread(Arriving, !t.sense, t.entered + 1, t.left), s.flips);
  }

  lemma {:induction false} ArriveOk(s: State, i: nat)
    requires Inv(s) && i < |s.threads| && s.threads[i].pc == Arriving
    ensures Inv(Step(s, i))
  {
    hide Count;
    var t := s.threads[i];
    NotAll(s, i);
    CountUpdate(s.threads, i, t.(pc := if s.cnt == 1 then Resetting else Testing), s.flips);
  }

  /** While one thread is outside or about to decrement, nobody releases the episode. */
  lemma {:induction false} NotAll(s: State, i: nat)
    requires Inv(s) && i < |s.threads| && !Arrived(s.threads[i], s.flips)
    ensures Count(s.threads, s.flips) < |s.threads|
    ensures s.last >= 0 ==> s.threads[s.last].pc == Waking
    ensures s.threads[i].pc == Arriving && s.last >= 0 ==> Count(s.threads, s.flips) < |s.threads| - 1
  {
    hide Count;
    CountAll(s.threads, s.flips);
    if s.threads[i].pc == Arriving && s.last >= 0 {
      var t := s.threads[i].(pc := Testing);
      CountUpdate(s.threads, i, t, s.flips);
      CountAll(s.threads[i := t], s.flips);
      assert !Arrived(s.threads[i := t][s.last], s.flips);
    }
  }

  lemma {:induction false} ResetOk(s: State, i: nat)
    requires Inv(s) && i < |s.threads| && s.threads[i].pc == Resetting
    ensures Inv(Step(s, i))
  {
    hide Count;
    CountUpdate(s.threads, i, s.threads[i].(pc := Flipping), s.flips);
  }

  lemma {:induction false} FlipOk(s: State, i: nat)
    requires Inv(s) && i < |s.threads| && s.threads[i].pc == Flipping
    ensures Inv(Step(s, i))
  {
    hide Count;
    var s' := Step(s, i);
    CountAll(s.threads, s.flips);
    assert forall j :: 0 <= j < |s.threads| ==> Arrived(s.threads[j], s.flips);
    CountNone(s'.threads, s'.flips);
  }

  lemma {:induction false} WakeOk(s: State, i: nat)
    requires Inv(s) && i < |s.threads| && s.threads[i].pc == Waking
    ensures Inv(Step(s, i))
  {
    hide Count;
    var s' := Step(s, i);
    CountSame(s.threads, s'.threads, s.flips);
    NotAll(s, i);
  }

  lemma {:induction false} SenseTells(s: State, i: nat)
    requires Inv(s) && i < |s.threads|
    ensures ThreadOk(s.threads[i], s.flips)
    ensures s.threads[i].sense == s.global <==> s.threads[i].entered == s.flips
  {
  }

  /** Every step of every thread keeps the invariant. */
  lemma {:induction false} ActOk(s: State, i: nat)
    requires Inv(s) && i < |s.threads|
    ensures Inv(Act(s, i)) && |Act(s, i).threads| == |s.threads|
  {
    hide Inv;
    SenseTells(s, i);
    var t := s.threads[i];
    match t.pc
    case Outside => EnterOk(s, i);
    case Arriving => ArriveOk(s, i);
    case Resetting => ResetOk(s, i);
    case Flipping => FlipOk(s, i);
    case Waking => WakeOk(s, i);
    case Testing => MoveOk(s, i, if t.sense != s.global then t.(pc := Spinning(TIMEOUT)) else Return(t));
    case Spinning(k) =>
      MoveOk(s, i, t.(pc := if k == 0 then Parking else if t.sense == s.global then Testing else Spinning(k - 1)));
    case Parking => MoveOk(s, i, t.(pc := if s.global != t.sense then Asleep else Testing));
    case Asleep => MoveOk(s, i, t.(pc := Testing));
  }

  /** A run: states connected by steps. */
  ghost predicate IsRun(run: seq<State>, n: nat) {
    && run != [] && run[0] == Init(n)
    && forall k :: 0 < k < |run| ==> Next(run[k - 1], run[k])
  }

  lemma {:induction false} RunOk(run: seq<State>, n: nat, k: nat)
    requires IsRun(run, n) && n >= 1 && k < |run|
    ensures Inv(run[k]) && |run[k].threads| == n
  {
    hide Inv, Act;
    if k == 0 {
      InitOk(n);
    } else {
      RunOk(run, n, k - 1);
      assert Next(run[k - 1], run[k]);
      var i: nat :| i < |run[k - 1].threads| && run[k] == Act(run[k - 1], i);
      ActOk(run[k - 1], i);
    }
  }

  // ----- What the invariant gives -----

  /** In every run, no thread returns from its k-th call before all N have made theirs. */
  lemma {:induction false} NobodyLeavesEarly(run: seq<State>, n: nat, k: nat, i: nat, j: nat)
    requires IsRun(run, n) && n >= 1 && k < |run| && i < n && j < n
    ensures |run[k].threads| == n
    ensures run[k].threads[i].left <= run[k].threads[j].entered
  {
    hide IsRun;
    RunOk(run, n, k);
    SenseTells(run[k], i);
    SenseTells(run[k], j);
  }

  /** While the counter is being reset all other threads wait, so that the store cannot lose a
      decrement; and a thread about to decrement finds the counter between 1 and N. */
  lemma {:induction false} ResetIsUndisturbed(run: seq<State>, n: nat, k: nat, i: nat, j: nat)
    requires IsRun(run, n) && n >= 1 && k < |run| && i < n && j < n && i != j
    ensures |run[k].threads| == n
    ensures run[k].threads[i].pc == Resetting || run[k].threads[i].pc == Flipping ==> Waiting(run[k].threads[j])
    ensures run[k].threads[i].pc == Arriving ==> 1 <= run[k].cnt <= n
  {
    hide IsRun, Count;
    RunOk(run, n, k);
    var s := run[k];
    CountAll(s.threads, s.flips);
    SenseTells(s, j);
    if s.threads[i].pc == Arriving {
      NotAll(s, i);
    }
  }

  /** A thread sleeps only while its episode is not released, or while a wake-up is still to
      come. */
  lemma {:induction false} NoLostWakeup(run: seq<State>, n: nat, k: nat, i: nat)
    requires IsRun(run, n) && n >= 1 && k < |run| && i < n
    ensures |run[k].threads| == n
    ensures run[k].threads[i].pc == Asleep ==> run[k].threads[i].sense != run[k].global || IsWaking(run[k])
  {
    hide IsRun;
    RunOk(run, n, k);
    SenseTells(run[k], i);
  }

  /** There is no deadlock: in every reachable state some thread is awake and either outside
      the barrier, or on its way to the release or back from it. */
  lemma {:induction false} NoDeadlock(run: seq<State>, n: nat, k: nat) returns (i: nat)
    requires IsRun(run, n) && n >= 1 && k < |run|
    ensures |run[k].threads| == n && i < n
    ensures run[k].threads[i].pc != Asleep
    ensures Waiting(run[k].threads[i]) ==> run[k].threads[i].sense == run[k].global
  {
    hide IsRun, Count;
    RunOk(run, n, k);
    var s := run[k];
    if s.last >= 0 {
      return s.last;
    }
    CountAll(s.threads, s.flips);
    i :| 0 <= i < n && !Arrived(s.threads[i], s.flips);
    SenseTells(s, i);
  }

  /** A thread outside sees the sense of its own number of calls in the shared variable. */
  lemma {:induction false} OutsideSeesOwnSense(run: seq<State>, n: nat, k: nat, i: nat)
    requires IsRun(run, n) && n >= 1 && k < |run| && i < n
    ensures |run[k].threads| == n
    ensures run[k].threads[i].pc == Outside ==>
              run[k].global == run[k].threads[i].sense == Sense(run[k].threads[i].entered)
  {
    hide IsRun;
    RunOk(run, n, k);
    SenseTells(run[k], i);
  }

  // ----- What a caller needs to know -----

  /** The barrier as its callers see it: who has called and who has returned how often. */
  datatype Calls = Calls(entered: seq<nat>, left: seq<nat>)

  predicate WellSized(c: Calls, n: nat) { |c.entered| == n && |c.left| == n }

  predicate MayEnter(c: Calls, i: nat)
    requires WellSized(c, |c.entered|) && i < |c.entered|
  {
    c.entered[i] == c.left[i]
  }

  function Enter(c: Calls, i: nat): Calls
    requires WellSized(c, |c.entered|) && i < |c.entered|
  {
    c.(entered := c.entered[i := c.entered[i] + 1])
  }

  /** A call returns when all threads have made as many calls. */
  predicate MayLeave(c: Calls, i: nat)
    requires WellSized(c, |c.entered|) && i < |c.entered|
  {
    c.entered[i] == c.left[i] + 1 && forall j :: 0 <= j < |c.entered| ==> c.entered[j] >= c.entered[i]
  }

  function Leave(c: Calls, i: nat): Calls
    requires WellSized(c, |c.entered|) && i < |c.entered|
  {
    c.(left := c.left[i := c.left[i] + 1])
  }

  function CallsOf(s: State): (c: Calls)
    ensures WellSized(c, |s.threads|)
  {
    Calls(seq(|s.threads|, i requires 0 <= i < |s.threads| => s.threads[i].entered),
          seq(|s.threads|, i requires 0 <= i < |s.threads| => s.threads[i].left))
  }

  lemma {:induction false} CallsAfter(s: State, s': State, i: nat)
    requires |s'.threads| == |s.threads| && i < |s.threads|
    requires forall j :: 0 <= j < |s.threads| && j != i ==>
               s'.threads[j].entered == s.threads[j].entered && s'.threads[j].left == s.threads[j].left
    ensures var c := CallsOf(s);
            CallsOf(s') == Calls(c.entered[i := s'.threads[i].entered], c.left[i := s'.threads[i].left])
  {
  }

  /** Every step of the implementation is a call, a permitted return, or invisible. */
  lemma {:induction false} Refines(s: State, i: nat)
    requires Inv(s) && i < |s.threads|
    ensures var c, c' := CallsOf(s), CallsOf(Act(s, i));
            || c' == c
            || (MayEnter(c, i) && c' == Enter(c, i) && s.threads[i].pc == Outside)
            || (MayLeave(c, i) && c' == Leave(c, i))
  {
    hide Count, CntOk, SleepOk;
    SenseTells(s, i);
    CallsAfter(s, Act(s, i), i);
    assert forall j :: 0 <= j < |s.threads| ==> ThreadOk(s.threads[j], s.flips);
    SameAt(CallsOf(s).entered, i);
    SameAt(CallsOf(s).left, i);
  }

  lemma {:induction false} SameAt(xs: seq<nat>, i: nat)
    requires i < |xs|
    ensures xs[i := xs[i]] == xs
  {
  }

  // ----- Progress -----

  /** Steps a released thread still needs to return. */
  function ToReturn(t: Thread): nat {
    match t.pc
    case Testing => 1
    case Waking => 1
    case Spinning(k) => if k == 0 then 3 else 2
    case Parking => 2
    case Asleep => 2
    case _ => 0
  }

  /** Once the episode is released, every step a thread takes brings it closer to its return,
      and no step of another thread sets it back. */
  lemma {:induction false} ReleasedReturns(s: State, i: nat, j: nat)
    requires Inv(s) && i < |s.threads| && j < |s.threads|
    requires s.threads[j].pc != Outside && s.threads[j].entered == s.flips
    ensures ToReturn(s.threads[j]) >= 1
    ensures i == j ==> ToReturn(Act(s, i).threads[j]) < ToReturn(s.threads[j])
    ensures i != j ==> ToReturn(Act(s, i).threads[j]) <= ToReturn(s.threads[j])
    ensures ToReturn(Act(s, i).threads[j]) == 0 ==> Act(s, i).threads[j] == Return(s.threads[j])
  {
    hide Count, CntOk;
    SenseTells(s, i);
    SenseTells(s, j);
    if s.threads[i].pc == Flipping {
      CountAll(s.threads, s.flips);
      assert false;
    }
  }

  /** Steps until the episode is released when all threads have called. */
  function ToRelease(s: State): int {
    2 * (|s.threads| - Count(s.threads, s.flips))
    + (if 0 <= s.last < |s.threads| && s.threads[s.last].pc == Flipping then 1 else 2)
  }

  /** Once all threads have called, every step of a thread that is not waiting brings the
      release closer, waiting does not delay it, and there always is such a thread. */
  lemma {:induction false} CalledIsReleased(s: State, i: nat)
    requires Inv(s) && i < |s.threads| && forall j :: 0 <= j < |s.threads| ==> s.threads[j].entered == s.flips + 1
    ensures ToRelease(s) >= 1
    ensures Waiting(s.threads[i]) ==> ToRelease(Act(s, i)) == ToRelease(s) && Act(s, i).flips == s.flips
    ensures !Waiting(s.threads[i]) ==> ToRelease(Act(s, i)) < ToRelease(s) || Act(s, i).flips == s.flips + 1
    ensures exists j :: 0 <= j < |s.threads| && !Waiting(s.threads[j])
  {
    hide Count, CntOk, SleepOk;
    SenseTells(s, i);
    CountAll(s.threads, s.flips);
    CountUpdate(s.threads, i, Act(s, i).threads[i], s.flips);
    SomebodyActive(s);
    var t := s.threads[i];
    if t.pc == Arriving {
      assert !Arrived(t, s.flips);
    } else if t.pc == Resetting {
      assert IsLast(t);
    }
  }

  lemma {:induction false} SomebodyActive(s: State)
    requires Inv(s) && forall j :: 0 <= j < |s.threads| ==> s.threads[j].entered == s.flips + 1
    ensures exists j :: 0 <= j < |s.threads| && !Waiting(s.threads[j])
  {
    hide Count;
    CountAll(s.threads, s.flips);
    if s.last >= 0 {
      assert IsLast(s.threads[s.last]) && !Waiting(s.threads[s.last]);
    } else {
      var j :| 0 <= j < |s.threads| && !Arrived(s.threads[j], s.flips);
      assert !Waiting(s.threads[j]);
    }
  }

  // ----- Before initialisation -----

  /** The shared variables before InitThreads has set them, and the one thread that destroys
      the pool. */
  const UNINITIALIZED: State := State([Thread(Outside, true, 0, 0)], 0, false, 0, -1)

  /** The second call of that thread, which nobody answers. */
  predicate Stuck(s: State) {
    && |s.threads| == 1 && !s.global && s.cnt < 1
    && s.threads[0].sense && s.threads[0].left == 1
    && (s.threads[0].pc == Arriving || Waiting(s.threads[0]))
  }

  /** Destroying a pool that was never initialised makes two calls of the barrier: the first
      one returns at once, and the second one never does. */
  lemma {:induction false} UninitializedPoolHangs(s: State)
    ensures Stuck(Step(Step(Step(Step(UNINITIALIZED, 0), 0), 0), 0))
    ensures Stuck(s) ==> Stuck(Act(s, 0))
  {
    var a := Step(UNINITIALIZED, 0);
    assert a.threads[0] == Thread(Arriving, false, 1, 0);
    var b := Step(a, 0);
    assert b.threads[0] == Thread(Testing, false, 1, 0);
    var c := Step(b, 0);
    assert c.threads[0] == Thread(Outside, false, 1, 1);
  }

  /** Where that thread may be: before or in its first call, or stuck in the second one. */
  predicate Unanswered(s: State) {
    Stuck(s) ||
    (&& |s.threads| == 1 && !s.global && s.cnt < 1
     && var t := s.threads[0];
        if t.left == 0 then (if t.pc == Outside then t.sense else !t.sense && (t.pc == Arriving || t.pc == Testing))
        else t.left == 1 && t.pc == Outside && !t.sense)
  }

  /** A run that starts before InitThreads. */
  ghost predicate IsUninitializedRun(run: seq<State>) {
    && run != [] && run[0] == UNINITIALIZED
    && forall k :: 0 < k < |run| ==> Next(run[k - 1], run[k])
  }

  /** In no run from there does the second call return, however long it is. */
  lemma {:induction false} SecondCallNeverReturns(run: seq<State>, k: nat)
    requires IsUninitializedRun(run) && k < |run|
    ensures Unanswered(run[k])
    ensures |run[k].threads| == 1 && run[k].threads[0].left <= 1
  {
    if k > 0 {
      SecondCallNeverReturns(run, k - 1);
      var i: nat :| i < |run[k - 1].threads| && run[k] == Act(run[k - 1], i);
    }
  }
}
