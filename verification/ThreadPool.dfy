/** The thread pool: how the main thread hands kernels to the workers, over the barrier. */
module ThreadPool {
  import B = Barrier

  datatype Job = Mult | MultSym | Kernel | KernelSym {
    /** Symmetric jobs meet twice inside the job. */
    predicate Sym() { MultSym? || KernelSym? }
  }

  /** The calls of the barrier in the program text: at creation, where workers wait for a
      kernel, inside a symmetric job (twice), after a job, and before the workers exit. */
  datatype Label = Start | Go | Inner1 | Inner2 | Done | Final

  /** `Idle`, `Assigning`, `Arming` and `Joining` are places of the main thread, `Deciding` of
      a worker.  `Working(p)` is part p of a job; only symmetric jobs have parts 2 and 3. */
  datatype Pc =
    | Idle
    | Assigning(k: nat)
    | Arming(k: nat)
    | Joining
    | Deciding
    | Working(part: nat)
    | Calling(l: Label)
    | InCall(l: Label)
    | Exited

  /** What the main thread is doing. */
  datatype Round = Nothing | Launch(job: Job) | Stop

  /** A part of a job that a thread has worked on, with the data it was given: the number of the
      launch that wrote them. */
  datatype Work = Work(job: Job, launch: nat, part: nat)

  /** Thread 0 is the main thread.  `senses` are the senses of the pool and the workers,
      `spmSenses` those of the per-thread records of the matrix, which symmetric jobs use.
      `base` is the number of calls before the current round, `launched` the jobs launched so
      far and `did[i]` the work thread i has finished; the program does not have these three. */
  datatype State = State(
    pcs: seq<Pc>, senses: seq<bool>, spmSenses: seq<bool>, jobs: seq<Job>, data: seq<nat>, workDone: bool,
    round: Round, calls: B.Calls, base: nat, launched: seq<Job>, did: seq<seq<Work>>)

  /** InitThreads has created the workers; everybody is about to meet. */
  function Init(n: nat): State {
    State(seq(n + 1, _ => Calling(Start)), seq(n + 1, _ => true), seq(n + 1, _ => true), seq(n + 1, _ => Mult),
          seq(n + 1, _ => 0), false, Nothing, B.Calls(seq(n + 1, _ => 0), seq(n + 1, _ => 0)), 1, [],
            seq(n + 1, _ => []))
  }

  predicate Sized(s: State) {
    var n := |s.pcs|;
    n >= 1 && |s.senses| == |s.spmSenses| == |s.jobs| == |s.data| == |s.did| == n && B.WellSized(s.calls, n)
  }

  /** The shared sense as a thread outside the barrier reads it. */
  function GlobalSense(s: State, i: nat): bool
    requires Sized(s) && i < |s.pcs|
  {
    B.Sense(s.calls.left[i])
  }

  predicate Inner(l: Label) { l == Inner1 || l == Inner2 }

  /** The sense variable passed to a call. */
  function SenseInUse(s: State, i: nat, l: Label): bool
    requires Sized(s) && i < |s.pcs|
  {
    if Inner(l) then s.spmSenses[i] else s.senses[i]
  }

  // ----- Steps -----

  /** Where a thread goes when part `p` of a job is done. */
  function AfterPart(p: nat, job: Job): Pc {
    if p == 1 && job.Sym() then Calling(Inner1) else if p == 2 then Calling(Inner2) else Calling(Done)
  }

  function JobOf(s: State, i: nat): Job
    requires Sized(s) && i < |s.pcs|
  {
    if i == 0 && s.round.Launch? then s.round.job else s.jobs[i]
  }

  /** The launch whose data a thread works on: the main thread hands its own record to the job it
      has just launched. */
  function DataOf(s: State, i: nat): nat
    requires Sized(s) && i < |s.pcs|
  {
    if i == 0 && |s.launched| >= 1 then |s.launched| - 1 else s.data[i]
  }

  /** Where a call returns to. */
  function AfterCall(l: Label, main: bool, stopping: bool): Pc {
    match l
    case Start => if main then Idle else Calling(Go)
    case Go => if !main then Deciding else if stopping then Calling(Final) else Working(1)
    case Inner1 => Working(2)
    case Inner2 => Working(3)
    case Done => if main then Idle else Calling(Go)
    case Final => if main then Joining else Exited
  }

  predicate Can(s: State, i: nat)
    requires Sized(s) && i < |s.pcs|
  {
    match s.pcs[i]
    case Idle => false
    case Exited => false
    case Joining => forall w :: 1 <= w < |s.pcs| ==> s.pcs[w] == Exited
    case InCall(_) => B.MayLeave(s.calls, i)
    case _ => true
  }

  function Go_(s: State, i: nat, pc: Pc): (r: State)
    requires Sized(s) && i < |s.pcs|
    ensures Sized(r)
  {
    s.(pcs := s.pcs[i := pc])
  }

  function Call(s: State, i: nat, l: Label): (r: State)
    requires Sized(s) && i < |s.pcs|
    ensures Sized(r)
  {
    var r := Go_(s, i, InCall(l)).(calls := B.Enter(s.calls, i));
    if Inner(l) then r.(spmSenses := s.spmSenses[i := !s.spmSenses[i]])
    else r.(senses := s.senses[i := !s.senses[i]])
  }

  function Return(s: State, i: nat, l: Label): (r: State)
    requires Sized(s) && i < |s.pcs|
    ensures Sized(r)
  {
    var r := Go_(s, i, AfterCall(l, i == 0, s.round.Stop?)).(calls := B.Leave(s.calls, i));
    if i == 0 && l == Done then r.(round := Nothing, base := r.calls.left[0]) else r
  }

  /** Writes the data of worker k + 1; when all have theirs, arms the main thread's own record. */
  function Assign(s: State, k: nat): (r: State)
    requires Sized(s) && s.round.Launch?
    ensures Sized(r)
  {
    if k + 1 < |s.pcs| then Go_(s, 0, Assigning(k + 1)).(data := s.data[k + 1 := |s.launched|])
    else
      var r := Go_(s, 0, Arming(0));
      if s.round.job.Sym() then r.(spmSenses := s.spmSenses[0 := !GlobalSense(s, 0)]) else r
  }

  /** SetKernel: writes the job of worker k + 1, and for a symmetric job the sense of its record. */
  function Arm(s: State, k: nat): (r: State)
    requires Sized(s) && s.round.Launch?
    ensures Sized(r)
  {
    if k + 1 < |s.pcs| then
      var r := Go_(s, 0, Arming(k + 1)).(jobs := s.jobs[k + 1 := s.round.job]);
      if s.round.job.Sym() then r.(spmSenses := s.spmSenses[k + 1 := !GlobalSense(s, 0)]) else r
    else Go_(s, 0, Calling(Go)).(launched := s.launched + [s.round.job])
  }

  /** The worker leaves its waiting loop or picks up its job. */
  function Decide(s: State, i: nat): (r: State)
    requires Sized(s) && i < |s.pcs|
    ensures Sized(r)
  {
    if s.workDone then Go_(s, i, Calling(Final))
    else Go_(s, i, Working(1))
  }

  /** Finishes a part of the job. */
  function Perform(s: State, i: nat, part: nat): (r: State)
    requires Sized(s) && i < |s.pcs|
    ensures Sized(r)
  {
    var work := Work(JobOf(s, i), DataOf(s, i), part);
    Go_(s, i, AfterPart(part, JobOf(s, i))).(did := s.did[i := s.did[i] + [work]])
  }

  function Step(s: State, i: nat): (r: State)
    requires Sized(s) && i < |s.pcs| && Can(s, i)
    requires s.pcs[i].Assigning? || s.pcs[i].Arming? ==> i == 0 && s.round.Launch?
    ensures Sized(r)
  {
    match s.pcs[i]
    case Assigning(k) => Assign(s, k)
    case Arming(k) => Arm(s, k)
    case Joining => Go_(s, i, Exited)
    case Deciding => Decide(s, i)
    case Working(p) => Perform(s, i, p)
    case Calling(l) => Call(s, i, l)
    case InCall(l) => Return(s, i, l)
  }

  /** The client launches a kernel. */
  function StartLaunch(s: State, job: Job): (r: State)
    requires Sized(s)
    ensures Sized(r)
  {
    Go_(s, 0, Assigning(0)).(round := Launch(job))
  }

  /** The pool is destroyed. */
  function StartStop(s: State): (r: State)
    requires Sized(s)
    ensures Sized(r)
  {
    Go_(s, 0, Calling(Go)).(round := Stop, workDone := true)
  }

  // ----- The invariant -----

  /** Number of calls in a round. */
  function Len(r: Round): nat {
    match r
    case Nothing => 0
    case Launch(j) => if j.Sym() then 4 else 2
    case Stop => 2
  }

  /** Which call comes at offset `o` of a round; -1 is the last one of the round before. */
  function LabelAt(r: Round, o: int, first: bool): Label {
    if o < 0 then (if first then Start else Done)
    else if o == 0 || r.Nothing? then Go
    else if r.Stop? then Final
    else if o == Len(r) then Go
    else if o == Len(r) - 1 then Done
    else if o == 1 then Inner1 else Inner2
  }

  /** Where a thread may be when it has returned from `o` calls of the round. */
  predicate PcOk(main: bool, pc: Pc, o: int, inside: bool, r: Round, first: bool) {
    && -1 <= o <= Len(r) && (main && o < 0 ==> first && r.Nothing?)
    && (inside ==> pc == InCall(LabelAt(r, o, first)) && (r.Stop? ==> o <= 1) && (main ==> o < Len(r) || o < 0))
    && (!inside ==>
          match pc
          case Idle => main && o == 0 && r.Nothing?
          case Assigning(_) => main && o == 0 && r.Launch?
          case Arming(_) => main && o == 0 && r.Launch?
          case Joining => main && o == 2 && r.Stop?
          case Exited => o == 2 && r.Stop?
          case Deciding => !main && o == 1 && !r.Nothing?
          case Working(p) => r.Launch? && o == p && 1 <= p < Len(r)
          case Calling(l) =>
            && l == LabelAt(r, o, first) && (o < 0 ==> first)
            && (main && o >= 0 ==> o < Len(r)) && (r.Stop? ==> o <= 1)
          case InCall(_) => false)
  }

  /** What concerns one thread. */
  datatype View = View(pc: Pc, entered: nat, left: nat, sense: bool, spmSense: bool, job: Job, data: nat,
                       did: seq<Work>)

  /** What concerns all threads: the round, and up to which thread the main thread has written
      the data, resp. the jobs, of a launch it is preparing. */
  datatype Common = Common(round: Round, base: nat, launched: seq<Job>, preparing: bool, given: int, armed: int)

  function ViewOf(s: State, i: nat): View
    requires Sized(s) && i < |s.pcs|
  {
    View(s.pcs[i], s.calls.entered[i], s.calls.left[i], s.senses[i], s.spmSenses[i], s.jobs[i], s.data[i], s.did[i])
  }

  function CommonOf(s: State): Common
    requires Sized(s)
  {
    var n, pc := |s.pcs|, s.pcs[0];
    Common(s.round, s.base, s.launched, pc.Assigning? || pc.Arming?,
           if pc.Assigning? then pc.k else n, if pc.Assigning? then -1 else if pc.Arming? then pc.k else n)
  }

  predicate Preparing(s: State)
    requires Sized(s)
  {
    s.pcs[0].Assigning? || s.pcs[0].Arming?
  }

  /** Inner calls entered in a round after `e` calls. */
  function InnerCalls(r: Round, e: int): nat {
    if !(r.Launch? && r.job.Sym()) || e <= 1 then 0 else if e == 2 then 1 else 2
  }

  /** How many parts a job has. */
  function Parts(job: Job): nat { if job.Sym() then 3 else 1 }

  /** The first n parts of the job of launch k, in order. */
  function WorkOf(job: Job, k: nat, n: nat): seq<Work> { seq(n, q requires 0 <= q < n => Work(job, k, q + 1)) }

  /** All parts of all launches, once each and in order. */
  function AllWork(launched: seq<Job>): seq<Work> {
    if launched == [] then []
    else
      var k := |launched| - 1;
      AllWork(launched[..k]) + WorkOf(launched[k], k, Parts(launched[k]))
  }

  /** All parts of all launches but the last, and n parts of that one. */
  function WorkUpTo(launched: seq<Job>, n: nat): seq<Work>
    requires |launched| >= 1
  {
    var k := |launched| - 1;
    AllWork(launched[..k]) + WorkOf(launched[k], k, n)
  }

  /** Parts of the current job a thread has done that has returned from `o` calls of the round. */
  function PartsDone(pc: Pc, o: int, job: Job): int {
    if o <= 0 || pc.Deciding? then 0
    else if pc.Working? then pc.part - 1
    else if o < Parts(job) then o else Parts(job)
  }

  predicate DidOk(v: View, c: Common) {
    if c.round.Launch? && !c.preparing then
      var n := PartsDone(v.pc, v.left - c.base, c.round.job);
      |c.launched| >= 1 && n >= 0 && v.did == WorkUpTo(c.launched, n)
    else v.did == AllWork(c.launched)
  }

  predicate ViewOk(i: nat, v: View, c: Common) {
    var inner := InnerCalls(c.round, v.entered - c.base);
    && (v.entered == v.left || v.entered == v.left + 1)
    && PcOk(i == 0, v.pc, v.left - c.base, v.entered == v.left + 1, c.round, c.base == 1)
    && v.sense == B.Sense(v.entered + inner)
    && (c.round.Launch? && c.round.job.Sym() && i <= c.armed ==> v.spmSense == B.Sense(c.base + 1 + inner))
    && (i > 0 && c.round.Launch? && i <= c.given ==> v.data == if c.preparing then |c.launched| else |c.launched| - 1)
    && (i > 0 && c.round.Launch? && i <= c.armed ==> v.job == c.round.job)
    && DidOk(v, c)
  }

  predicate CommonOk(s: State)
    requires Sized(s)
  {
    && s.base >= 1
    && s.workDone == s.round.Stop?
    && (s.round.Launch? && !Preparing(s) ==> |s.launched| >= 1 && s.launched[|s.launched| - 1] == s.round.job)
  }

  /** Nobody returns from a call that somebody has not made: what the barrier guarantees. */
  predicate Met(c: B.Calls) {
    forall i, j :: 0 <= i < |c.left| && 0 <= j < |c.entered| ==> c.left[i] <= c.entered[j]
  }

  predicate AllViewsOk(s: State)
    requires Sized(s)
  {
    forall i :: 0 <= i < |s.pcs| ==> ViewOk(i, ViewOf(s, i), CommonOf(s))
  }

  predicate Inv(s: State) {
    Sized(s) && CommonOk(s) && Met(s.calls) && AllViewsOk(s)
  }

  lemma {:induction false} InitOk(n: nat)
    ensures Inv(Init(n))
  {
    forall i | 0 <= i < n + 1 ensures ViewOk(i, ViewOf(Init(n), i), CommonOf(Init(n))) {
    }
  }

  // ----- Every step keeps the invariant -----

  /** A step of one thread that leaves the common part alone. */
  lemma {:induction false} OthersKeep(s: State, s': State, i: nat)
    requires Inv(s) && Sized(s') && i < |s.pcs| == |s'.pcs|
    requires CommonOf(s') == CommonOf(s) && CommonOk(s') && Met(s'.calls)
    requires ViewOk(i, ViewOf(s', i), CommonOf(s))
    requires forall j :: 0 <= j < |s.pcs| && j != i ==> ViewOf(s', j) == ViewOf(s, j)
    ensures Inv(s')
  {
    hide ViewOk, ViewOf, CommonOf;
  }

  lemma {:induction false} ViewAt(s: State, i: nat)
    requires Inv(s) && i < |s.pcs|
    ensures Sized(s) && ViewOk(i, ViewOf(s, i), CommonOf(s)) && CommonOk(s)
    ensures s.calls.left[i] <= s.calls.entered[0] && s.calls.left[0] <= s.calls.entered[i]
  {
  }

  /** A thread that has returned from the first call of a round knows that the main thread has
      made it. */
  lemma {:induction false} MainAhead(s: State, i: nat)
    requires Inv(s) && i < |s.pcs| && s.calls.left[i] > s.base
    ensures !CommonOf(s).preparing && !s.round.Nothing?
    ensures CommonOf(s).given == CommonOf(s).armed == |s.pcs|
  {
    hide Inv, DidOk;
    ViewAt(s, i);
    ViewAt(s, 0);
  }

  lemma {:induction false} WorkNext(job: Job, k: nat, n: nat)
    requires n >= 1
    ensures WorkOf(job, k, n) == WorkOf(job, k, n - 1) + [Work(job, k, n)]
  {
  }

  lemma {:induction false} PerformedDid(v: View, c: Common, w: View)
    requires DidOk(v, c) && c.round.Launch? && !c.preparing && v.pc.Working? && 1 <= v.pc.part <= Parts(c.round.job)
    requires |c.launched| >= 1 && c.launched[|c.launched| - 1] == c.round.job && v.left - c.base == v.pc.part
    requires w.left == v.left && w.pc.Calling? && w.did == v.did + [Work(c.round.job, |c.launched| - 1, v.pc.part)]
    ensures DidOk(w, c)
  {
    hide AllWork, WorkOf;
    WorkNext(c.round.job, |c.launched| - 1, v.pc.part);
  }

  lemma {:induction false} WorkView(i: nat, v: View, c: Common, data: nat)
    requires ViewOk(i, v, c) && v.pc.Working? && i <= c.armed && i <= c.given && !c.preparing
    requires c.round.Launch? ==> |c.launched| >= 1 && c.launched[|c.launched| - 1] == c.round.job
    requires data == if i == 0 && |c.launched| >= 1 then |c.launched| - 1 else v.data
    ensures c.round.Launch? && (i > 0 ==> v.job == c.round.job)
    ensures var work := Work(c.round.job, data, v.pc.part);
            ViewOk(i, v.(pc := AfterPart(v.pc.part, c.round.job), did := v.did + [work]), c)
  {
    hide DidOk;
    var work := Work(c.round.job, data, v.pc.part);
    PerformedDid(v, c, v.(pc := AfterPart(v.pc.part, c.round.job), did := v.did + [work]));
  }

  lemma {:induction false} WorkOk(s: State, i: nat)
    requires Inv(s) && i < |s.pcs| && s.pcs[i].Working?
    ensures Inv(Step(s, i))
  {
    hide Inv, PcOk, DidOk;
    ViewAt(s, i);
    MetOf(s);
    WorkingPast(i, ViewOf(s, i), CommonOf(s));
    MainAhead(s, i);
    WorkView(i, ViewOf(s, i), CommonOf(s), DataOf(s, i));
    OthersKeep(s, Step(s, i), i);
  }

  lemma {:induction false} WorkingPast(i: nat, v: View, c: Common)
    requires ViewOk(i, v, c)
    ensures v.pc.Working? || v.pc.Deciding? ==> v.left > c.base
    ensures v.pc.Deciding? ==> i > 0
  {
  }

  /** Only the place of one thread changes. */
  lemma {:induction false} ChangePc(s: State, i: nat, pc: Pc)
    requires Inv(s) && i < |s.pcs| && ViewOk(i, ViewOf(s, i).(pc := pc), CommonOf(s))
    requires i == 0 ==> !Preparing(s) && !pc.Assigning? && !pc.Arming?
    ensures Inv(Go_(s, i, pc))
  {
    hide ViewOk;
    OthersKeep(s, Go_(s, i, pc), i);
  }

  lemma {:induction false} DecideView(i: nat, v: View, c: Common)
    requires ViewOk(i, v, c) && v.pc.Deciding?
    requires !c.preparing && !c.round.Nothing? && i <= c.given && i <= c.armed
    requires c.round.Launch? ==> |c.launched| >= 1 && c.launched[|c.launched| - 1] == c.round.job
    ensures c.round.Stop? ==> ViewOk(i, v.(pc := Calling(Final)), c)
    ensures c.round.Launch? ==> ViewOk(i, v.(pc := Working(1)), c)
  {
    hide AllWork, WorkOf;
  }

  lemma {:induction false} DecideOk(s: State, i: nat)
    requires Inv(s) && i < |s.pcs| && s.pcs[i].Deciding?
    ensures Inv(Step(s, i))
  {
    hide Inv, PcOk, DidOk;
    ViewAt(s, i);
    WorkingPast(i, ViewOf(s, i), CommonOf(s));
    MainAhead(s, i);
    DecideView(i, ViewOf(s, i), CommonOf(s));
    ChangePc(s, i, if s.workDone then Calling(Final) else Working(1));
  }

  lemma {:induction false} MetOf(s: State)
    requires Inv(s)
    ensures Sized(s) && Met(s.calls) && CommonOk(s)
  {
  }

  lemma {:induction false} CallView(i: nat, v: View, c: Common)
    requires ViewOk(i, v, c) && v.pc.Calling?
    requires v.left > c.base ==> i <= c.armed
    ensures var l := v.pc.l;
            var w := v.(pc := InCall(l), entered := v.entered + 1);
            ViewOk(i, if Inner(l) then w.(spmSense := !v.spmSense) else w.(sense := !v.sense), c)
  {
    hide DidOk;
    DidUnmoved(v, c, v.(pc := InCall(v.pc.l), entered := v.entered + 1));
  }

  lemma {:induction false} DidUnmoved(v: View, c: Common, w: View)
    requires DidOk(v, c) && w.left == v.left && w.did == v.did && w.pc.InCall? && v.pc.Calling?
    ensures DidOk(w, c) && forall b: bool :: DidOk(w.(spmSense := b), c) && DidOk(w.(sense := b), c)
  {
  }

  lemma {:induction false} CallOk(s: State, i: nat)
    requires Inv(s) && i < |s.pcs| && s.pcs[i].Calling?
    ensures Inv(Step(s, i))
  {
    hide Inv, PcOk, DidOk, ViewOk;
    ViewAt(s, i);
    MetOf(s);
    if s.calls.left[i] > s.base {
      MainAhead(s, i);
    }
    CallView(i, ViewOf(s, i), CommonOf(s));
    CallChanges(s, i, s.pcs[i].l);
    OthersKeep(s, Call(s, i, s.pcs[i].l), i);
  }

  lemma {:induction false} CallChanges(s: State, i: nat, l: Label)
    requires Sized(s) && i < |s.pcs| && s.pcs[i] == Calling(l) && Met(s.calls)
    ensures var s' := Call(s, i, l);
            var w := ViewOf(s, i).(pc := InCall(l), entered := s.calls.entered[i] + 1);
            && CommonOf(s') == CommonOf(s) && Met(s'.calls) && s'.workDone == s.workDone
            && ViewOf(s', i) == (if Inner(l) then w.(spmSense := !s.spmSenses[i]) else w.(sense := !s.senses[i]))
            && forall j :: 0 <= j < |s.pcs| && j != i ==> ViewOf(s', j) == ViewOf(s, j)
  {
  }

  lemma {:induction false} ReturnView(i: nat, v: View, c: Common)
    requires ViewOk(i, v, c) && v.pc.InCall? && !(i == 0 && v.pc.l == Done)
    requires c.round.Nothing? ==> v.left < c.base
    requires c.preparing && i > 0 ==> v.left < c.base
    requires c.round.Launch? ==> v.left < c.base + Len(c.round)
    ensures ViewOk(i, v.(pc := AfterCall(v.pc.l, i == 0, c.round.Stop?), left := v.left + 1), c)
  {
    hide AllWork, WorkOf;
  }

  lemma {:induction false} ReturnOk(s: State, i: nat)
    requires Inv(s) && i < |s.pcs| && s.pcs[i].InCall? && Can(s, i)
    requires !(i == 0 && s.pcs[i].l == Done)
    ensures Inv(Step(s, i))
  {
    hide Inv, PcOk, DidOk, ViewOk;
    ViewAt(s, i);
    ViewAt(s, 0);
    MetOf(s);
    MainMade(s);
    ReturnView(i, ViewOf(s, i), CommonOf(s));
    OthersKeep(s, Step(s, i), i);
  }

  /** Between rounds and while a launch is prepared, the main thread has not made the call that
      starts the next round. */
  lemma {:induction false} MainMade(s: State)
    requires Inv(s)
    ensures Sized(s)
    ensures s.round.Nothing? || CommonOf(s).preparing ==> s.calls.entered[0] <= s.base
    ensures s.round.Launch? ==> s.calls.entered[0] <= s.base + Len(s.round)
  {
    hide Inv, DidOk;
    MetOf(s);
    ViewAt(s, 0);
  }

  lemma {:induction false} RoundOverView(i: nat, v: View, c: Common, base: nat)
    requires ViewOk(i, v, c) && i > 0 && c.round.Launch? && !c.preparing && c.base >= 1
    requires |c.launched| >= 1 && c.launched[|c.launched| - 1] == c.round.job
    requires base == c.base + Len(c.round) && base <= v.entered && v.left <= base
    ensures ViewOk(i, v, c.(round := Nothing, base := base))
  {
    hide WorkOf;
  }

  lemma {:induction false} MainOverView(v: View, c: Common)
    requires ViewOk(0, v, c) && v.pc == InCall(Done) && c.base >= 1
    requires c.round.Launch? && !c.preparing ==> |c.launched| >= 1 && c.launched[|c.launched| - 1] == c.round.job
    ensures c.round.Launch? && !v.pc.Assigning? && v.entered == c.base + Len(c.round)
    ensures ViewOk(0, v.(pc := Idle, left := v.left + 1), c.(round := Nothing, base := v.left + 1))
  {
    hide WorkOf;
  }

  /** The main thread returns from the last call of a round: the round is over for everybody. */
  lemma {:induction false} RoundOverOk(s: State)
    requires Inv(s) && s.pcs[0] == InCall(Done) && Can(s, 0)
    ensures Inv(Step(s, 0))
  {
    hide Inv, PcOk, DidOk, ViewOk;
    MetOf(s);
    ViewAt(s, 0);
    MainOverView(ViewOf(s, 0), CommonOf(s));
    var s' := Step(s, 0);
    forall j | 0 <= j < |s.pcs| ensures ViewOk(j, ViewOf(s', j), CommonOf(s')) {
      if j > 0 {
        ViewAt(s, j);
        RoundOverView(j, ViewOf(s, j), CommonOf(s), s'.base);
      }
    }
    AllTogether(s');
  }

  lemma {:induction false} AllTogether(s: State)
    requires Sized(s) && CommonOk(s) && Met(s.calls)
    requires forall j :: 0 <= j < |s.pcs| ==> ViewOk(j, ViewOf(s, j), CommonOf(s))
    ensures Inv(s)
  {
    hide ViewOk;
  }

  // ----- Launching -----

  /** A parked worker: it has finished the round before, and has not returned from the call
      that starts the next one. */
  predicate IsParked(v: View, base: nat) {
    && v.pc in {Calling(Start), Calling(Go), InCall(Go), InCall(Done), InCall(Start)}
    && base <= v.entered <= base + 1 && v.left <= base
  }

  lemma {:induction false} ParkedView(i: nat, v: View, c: Common)
    requires ViewOk(i, v, c) && i > 0 && c.base <= v.entered && v.left <= c.base
    ensures IsParked(v, c.base)
  {
    hide DidOk;
  }

  /** The main thread outside a round, or preparing one. */
  lemma {:induction false} MainOutside(v: View, c: Common)
    requires ViewOk(0, v, c) && (v.pc == Idle || v.pc.Assigning? || v.pc.Arming?)
    ensures v.entered == v.left == c.base
    ensures v.pc == Idle ==> c.round.Nothing?
    ensures v.pc != Idle ==> c.round.Launch?
  {
    hide AllWork, WorkOf;
  }

  /** While the main thread is idle or writes the jobs and the data of a launch, every worker is
      parked: it does not look at them. */
  lemma {:induction false} AllParked(s: State, w: nat)
    requires Inv(s) && 1 <= w < |s.pcs| && (Preparing(s) || s.pcs[0] == Idle)
    ensures IsParked(ViewOf(s, w), s.base)
  {
    hide Inv, ViewOk, IsParked;
    ViewAt(s, 0);
    ViewAt(s, w);
    MainOutside(ViewOf(s, 0), CommonOf(s));
    ParkedView(w, ViewOf(s, w), CommonOf(s));
  }

  lemma {:induction false} PreparedView(i: nat, v: View, c: Common, c': Common)
    requires ViewOk(i, v, c) && i > 0 && IsParked(v, c.base)
    requires c.round.Launch? && c.preparing && c' == c.(given := c'.given, armed := c'.armed)
    requires i <= c'.given ==> i <= c.given || v.data == |c.launched|
    requires i <= c'.armed ==>
      i <= c.armed || (v.job == c.round.job && (c.round.job.Sym() ==> v.spmSense == B.Sense(c.base + 1)))
    ensures ViewOk(i, v, c')
  {
    hide AllWork, WorkOf;
  }

  /** Writing a worker's data, job and sense does not disturb it. */
  lemma {:induction false} WrittenView(i: nat, v: View, c: Common, data: nat, job: Job, spmSense: bool)
    requires ViewOk(i, v, c) && i > 0 && c.preparing && c.round.Launch?
    requires i <= c.given ==> data == v.data
    requires i <= c.armed ==> job == v.job && spmSense == v.spmSense
    ensures ViewOk(i, v.(data := data, job := job, spmSense := spmSense), c)
  {
    hide AllWork, WorkOf;
  }

  lemma {:induction false} MainPrepares(v: View, c: Common, pc: Pc, spmSense: bool, given: int, armed: int)
    requires ViewOk(0, v, c) && (v.pc.Assigning? || v.pc.Arming?) && (pc.Assigning? || pc.Arming?)
    requires armed >= 0 && c.round.job.Sym() ==> spmSense == B.Sense(c.base + 1)
    ensures ViewOk(0, v.(pc := pc, spmSense := spmSense), c.(given := given, armed := armed))
  {
    hide AllWork, WorkOf;
  }

  lemma {:induction false} AssignOk(s: State)
    requires Inv(s) && s.pcs[0].Assigning? && s.round.Launch?
    ensures Inv(Assign(s, s.pcs[0].k))
  {
    hide Inv, ViewOk, IsParked;
    MetOf(s);
    ViewAt(s, 0);
    MainOutside(ViewOf(s, 0), CommonOf(s));
    var k, c := s.pcs[0].k, CommonOf(s);
    var s' := Assign(s, k);
    var c' := CommonOf(s');
    MainPrepares(ViewOf(s, 0), c, s'.pcs[0], s'.spmSenses[0], c'.given, c'.armed);
    forall j | 0 <= j < |s.pcs| ensures ViewOk(j, ViewOf(s', j), c') {
      if j > 0 {
        ViewAt(s, j);
        AllParked(s, j);
        WrittenView(j, ViewOf(s, j), c, s'.data[j], s.jobs[j], s.spmSenses[j]);
        StillParked(ViewOf(s, j), s.base, s'.data[j], s.jobs[j], s.spmSenses[j]);
        PreparedView(j, ViewOf(s', j), c, c');
      }
    }
    AllTogether(s');
  }

  lemma {:induction false} StillParked(v: View, base: nat, data: nat, job: Job, spmSense: bool)
    requires IsParked(v, base)
    ensures IsParked(v.(data := data, job := job, spmSense := spmSense), base)
  {
  }

  lemma {:induction false} ArmOneOk(s: State)
    requires Inv(s) && s.pcs[0].Arming? && s.round.Launch? && s.pcs[0].k + 1 < |s.pcs|
    ensures Inv(Arm(s, s.pcs[0].k))
  {
    hide Inv, ViewOk, IsParked;
    MetOf(s);
    ViewAt(s, 0);
    MainOutside(ViewOf(s, 0), CommonOf(s));
    var k, c := s.pcs[0].k, CommonOf(s);
    var s' := Arm(s, k);
    var c' := CommonOf(s');
    ArmedMain(ViewOf(s, 0), c);
    MainPrepares(ViewOf(s, 0), c, s'.pcs[0], s'.spmSenses[0], c'.given, c'.armed);
    forall j | 0 <= j < |s.pcs| ensures ViewOk(j, ViewOf(s', j), c') {
      if j > 0 {
        ViewAt(s, j);
        AllParked(s, j);
        WrittenView(j, ViewOf(s, j), c, s.data[j], s'.jobs[j], s'.spmSenses[j]);
        StillParked(ViewOf(s, j), s.base, s.data[j], s'.jobs[j], s'.spmSenses[j]);
        PreparedView(j, ViewOf(s', j), c, c');
      }
    }
    AllTogether(s');
  }

  lemma {:induction false} ArmedMain(v: View, c: Common)
    requires ViewOk(0, v, c) && v.pc.Arming? && c.armed >= 0
    ensures c.round.job.Sym() ==> v.spmSense == B.Sense(c.base + 1)
  {
    hide AllWork, WorkOf;
  }

  lemma {:induction false} WorkLonger(launched: seq<Job>, j: Job)
    ensures WorkUpTo(launched + [j], 0) == AllWork(launched)
  {
    assert (launched + [j])[..|launched|] == launched;
  }

  lemma {:induction false} LaunchedView(i: nat, v: View, c: Common, n: nat)
    requires ViewOk(i, v, c) && i > 0 && IsParked(v, c.base) && c.round.Launch? && c.preparing
    requires i <= c.given && i <= c.armed
    ensures ViewOk(i, v, c.(preparing := false, launched := c.launched + [c.round.job], given := n, armed := n))
  {
    hide AllWork, WorkOf;
    WorkLonger(c.launched, c.round.job);
  }

  lemma {:induction false} MainLaunches(v: View, c: Common, n: nat)
    requires ViewOk(0, v, c) && v.pc.Arming? && c.armed >= 0 && c.preparing
    ensures ViewOk(0, v.(pc := Calling(Go)),
                   c.(preparing := false, launched := c.launched + [c.round.job], given := n, armed := n))
  {
    hide AllWork, WorkOf;
    WorkLonger(c.launched, c.round.job);
  }

  lemma {:induction false} LaunchOk(s: State)
    requires Inv(s) && s.pcs[0].Arming? && s.round.Launch? && s.pcs[0].k + 1 >= |s.pcs|
    ensures Inv(Arm(s, s.pcs[0].k))
  {
    hide Inv, ViewOk, IsParked;
    MetOf(s);
    ViewAt(s, 0);
    var c, s' := CommonOf(s), Arm(s, s.pcs[0].k);
    MainLaunches(ViewOf(s, 0), c, |s.pcs|);
    forall j | 0 <= j < |s.pcs| ensures ViewOk(j, ViewOf(s', j), CommonOf(s')) {
      if j > 0 {
        ViewAt(s, j);
        AllParked(s, j);
        LaunchedView(j, ViewOf(s, j), c, |s.pcs|);
      }
    }
    AllTogether(s');
  }

  lemma {:induction false} StartedView(i: nat, v: View, c: Common, c': Common)
    requires ViewOk(i, v, c) && c.round.Nothing? && !c.preparing && c'.base == c.base && c'.launched == c.launched
    requires if i == 0 then v.pc == Idle else IsParked(v, c.base)
    requires (c'.round.Launch? && c'.preparing && c'.armed < 0 && c'.given == 0) || (c'.round.Stop? && !c'.preparing)
    ensures i > 0 ==> ViewOk(i, v, c')
    ensures i == 0 ==> ViewOk(i, v.(pc := if c'.round.Stop? then Calling(Go) else Assigning(0)), c')
  {
    hide AllWork, WorkOf;
  }

  lemma {:induction false} StartOk(s: State, s': State)
    requires Inv(s) && s.pcs[0] == Idle
    requires s' == StartStop(s) || exists job :: s' == StartLaunch(s, job)
    ensures Inv(s')
  {
    hide Inv, ViewOk, IsParked;
    MetOf(s);
    ViewAt(s, 0);
    MainOutside(ViewOf(s, 0), CommonOf(s));
    forall j | 0 <= j < |s.pcs| ensures ViewOk(j, ViewOf(s', j), CommonOf(s')) {
      ViewAt(s, j);
      if j > 0 {
        AllParked(s, j);
      }
      StartedView(j, ViewOf(s, j), CommonOf(s), CommonOf(s'));
    }
    AllTogether(s');
  }

  lemma {:induction false} JoinOk(s: State)
    requires Inv(s) && s.pcs[0] == Joining
    ensures Inv(Go_(s, 0, Exited))
  {
    hide Inv, AllWork;
    MetOf(s);
    ViewAt(s, 0);
    ChangePc(s, 0, Exited);
  }

  // ----- Runs -----

  /** Which thread may take which kind of step. */
  lemma {:induction false} OnlyMain(s: State, i: nat)
    requires Inv(s) && i < |s.pcs|
    ensures s.pcs[i].Assigning? || s.pcs[i].Arming? ==> i == 0 && s.round.Launch?
    ensures s.pcs[i] == Joining || s.pcs[i] == Idle ==> i == 0
  {
    hide Inv, DidOk;
    ViewAt(s, i);
  }

  /** The next state: a thread takes a step, or the client starts a launch or destroys the pool. */
  ghost predicate Next(s: State, s': State) {
    Sized(s) && (
    || (exists i: nat :: i < |s.pcs| && Can(s, i)
          && (s.pcs[i].Assigning? || s.pcs[i].Arming? ==> i == 0 && s.round.Launch?) && s' == Step(s, i))
    || (s.pcs[0] == Idle && (s' == StartStop(s) || exists job :: s' == StartLaunch(s, job))))
  }

  lemma {:induction false} StepOk(s: State, i: nat)
    requires Inv(s) && i < |s.pcs| && Can(s, i)
    ensures s.pcs[i].Assigning? || s.pcs[i].Arming? ==> i == 0 && s.round.Launch?
    ensures Inv(Step(s, i))
  {
    MetOf(s);
    OnlyMain(s, i);
    hide Inv;
    match s.pcs[i]
    case Assigning(_) => AssignOk(s);
    case Arming(k) => if k + 1 < |s.pcs| { ArmOneOk(s); } else { LaunchOk(s); }
    case Joining => JoinOk(s);
    case Deciding => DecideOk(s, i);
    case Working(_) => WorkOk(s, i);
    case Calling(_) => CallOk(s, i);
    case InCall(l) => if i == 0 && l == Done { RoundOverOk(s); } else { ReturnOk(s, i); }
  }

  ghost predicate IsRun(run: seq<State>, n: nat) {
    && run != [] && run[0] == Init(n)
    && forall k :: 0 < k < |run| ==> Next(run[k - 1], run[k])
  }

  lemma {:induction false} RunOk(run: seq<State>, n: nat, k: nat)
    requires IsRun(run, n) && k < |run|
    ensures Inv(run[k])
  {
    hide Inv, Step, Init, StartLaunch, StartStop;
    if k == 0 {
      InitOk(n);
    } else {
      RunOk(run, n, k - 1);
      var s := run[k - 1];
      assert Next(s, run[k]);
      if s.pcs[0] == Idle && (run[k] == StartStop(s) || exists job :: run[k] == StartLaunch(s, job)) {
        StartOk(s, run[k]);
      } else {
        var i: nat :| i < |s.pcs| && Can(s, i)
          && (s.pcs[i].Assigning? || s.pcs[i].Arming? ==> i == 0 && s.round.Launch?) && run[k] == Step(s, i);
        StepOk(s, i);
      }
    }
  }

  // ----- What holds in every run -----

  /** Jobs and data are written only while every worker is parked. */
  lemma {:induction false} WrittenWhileParked(run: seq<State>, n: nat, k: nat, w: nat)
    requires IsRun(run, n) && k < |run|
    ensures Sized(run[k])
    ensures 1 <= w < |run[k].pcs| && Preparing(run[k]) ==> IsParked(ViewOf(run[k], w), run[k].base)
  {
    hide IsRun, IsParked, Inv;
    RunOk(run, n, k);
    MetOf(run[k]);
    if 1 <= w < |run[k].pcs| && Preparing(run[k]) {
      AllParked(run[k], w);
    }
  }

  /** All the work of the launches before the last one, and the first parts of that one. */
  ghost predicate InProgress(did: seq<Work>, launched: seq<Job>) {
    |launched| >= 1 && exists p: nat :: p <= Parts(launched[|launched| - 1]) && did == WorkUpTo(launched, p)
  }

  /** What a thread has done, by where it is. */
  predicate DoneBy(did: seq<Work>, launched: seq<Job>, pc: Pc) {
    match pc
    case Calling(Inner1) => |launched| >= 1 && did == WorkUpTo(launched, 1)
    case Calling(Inner2) => |launched| >= 1 && did == WorkUpTo(launched, 2)
    case Working(p) => |launched| >= 1 && p >= 1 && did == WorkUpTo(launched, p - 1)
    case Calling(Done) => did == AllWork(launched)
    case Exited => did == AllWork(launched)
    case Idle => did == AllWork(launched)
    case _ => true
  }

  lemma {:induction false} DidView(i: nat, v: View, c: Common)
    requires ViewOk(i, v, c)
    requires c.round.Launch? && !c.preparing ==> |c.launched| >= 1 && c.launched[|c.launched| - 1] == c.round.job
    requires v.left > c.base ==> !c.preparing
    ensures v.did == AllWork(c.launched) || InProgress(v.did, c.launched)
    ensures c.round.Nothing? ==> v.did == AllWork(c.launched)
    ensures DoneBy(v.did, c.launched, v.pc)
  {
    hide WorkOf;
    if c.round.Launch? && !c.preparing {
      var n: nat := PartsDone(v.pc, v.left - c.base, c.round.job);
      assert v.did == WorkUpTo(c.launched, n);
    }
  }

  /** Every thread, the main thread included, works on every part of every launch exactly once, in
      order and with the data of that launch: what it has done is all of the launches before the
      last one and the first parts of that one, and all parts when the client is idle, when the
      thread is about to make the call after the job, and at the end.  Before the meetings inside
      a symmetric job it has done one and two parts. */
  lemma {:induction false} EachLaunchOnce(run: seq<State>, n: nat, k: nat, i: nat)
    requires IsRun(run, n) && k < |run|
    ensures Sized(run[k])
    ensures i < |run[k].pcs| ==>
      var s := run[k];
      && (s.did[i] == AllWork(s.launched) || InProgress(s.did[i], s.launched))
      && (s.pcs[0] == Idle ==> s.did[i] == AllWork(s.launched))
      && DoneBy(s.did[i], s.launched, s.pcs[i])
  {
    hide IsRun, Inv, WorkOf, AllWork, ViewOk, InProgress, DoneBy;
    RunOk(run, n, k);
    MetOf(run[k]);
    if i < |run[k].pcs| {
      ViewAt(run[k], i);
      ViewAt(run[k], 0);
      IdleOutside(ViewOf(run[k], 0), CommonOf(run[k]));
      if run[k].calls.left[i] > run[k].base {
        MainAhead(run[k], i);
      }
      DidView(i, ViewOf(run[k], i), CommonOf(run[k]));
    }
  }

  /** The list of all work has every part of every launch exactly once, and nothing else. */
  lemma {:induction false} WorkOnce(launched: seq<Job>, w: Work)
    ensures multiset(AllWork(launched))[w]
         == if w.launch < |launched| && w.job == launched[w.launch] && 1 <= w.part <= Parts(w.job) then 1 else 0
  {
    if launched != [] {
      var k := |launched| - 1;
      WorkOnce(launched[..k], w);
      PartOnce(launched[k], k, Parts(launched[k]), w);
    }
  }

  lemma {:induction false} PartOnce(job: Job, k: nat, n: nat, w: Work)
    ensures multiset(WorkOf(job, k, n))[w] == if w.job == job && w.launch == k && 1 <= w.part <= n then 1 else 0
  {
    if n > 0 {
      PartOnce(job, k, n - 1, w);
      WorkNext(job, k, n);
    }
  }

  lemma {:induction false} IdleOutside(v: View, c: Common)
    requires ViewOk(0, v, c)
    ensures v.pc == Idle ==> c.round.Nothing?
  {
  }

  /** Whenever a thread is about to call the barrier, the sense it passes is the shared one. */
  lemma {:induction false} SensesAgree(run: seq<State>, n: nat, k: nat, i: nat)
    requires IsRun(run, n) && k < |run|
    ensures Sized(run[k])
    ensures i < |run[k].pcs| && run[k].pcs[i].Calling? ==>
      SenseInUse(run[k], i, run[k].pcs[i].l) == B.Sense(run[k].calls.entered[i]) == GlobalSense(run[k], i)
  {
    hide IsRun, Inv;
    RunOk(run, n, k);
    MetOf(run[k]);
    if i < |run[k].pcs| && run[k].pcs[i].Calling? {
      ViewAt(run[k], i);
      CallingSense(i, ViewOf(run[k], i), CommonOf(run[k]));
      if run[k].calls.left[i] > run[k].base {
        MainAhead(run[k], i);
      }
    }
  }

  lemma {:induction false} CallingSense(i: nat, v: View, c: Common)
    requires ViewOk(i, v, c) && v.pc.Calling?
    ensures v.entered == v.left
    ensures !Inner(v.pc.l) ==> v.sense == B.Sense(v.entered)
    ensures Inner(v.pc.l) ==> v.left > c.base && (i <= c.armed ==> v.spmSense == B.Sense(v.entered))
  {
    hide DidOk;
  }

  /** Calls with the same number are calls from the same place of the protocol, so that no
      thread takes one meeting for another. */
  lemma {:induction false} SamePlace(run: seq<State>, n: nat, k: nat, i: nat, j: nat)
    requires IsRun(run, n) && k < |run|
    ensures Sized(run[k])
    ensures i < |run[k].pcs| && j < |run[k].pcs| ==>
              run[k].pcs[i].InCall? && run[k].pcs[j].InCall? && run[k].calls.entered[i] == run[k].calls.entered[j] ==>
                run[k].pcs[i] == run[k].pcs[j]
  {
    hide IsRun, Inv, DidOk;
    RunOk(run, n, k);
    MetOf(run[k]);
    if i < |run[k].pcs| && j < |run[k].pcs| {
      ViewAt(run[k], i);
      ViewAt(run[k], j);
    }
  }

  /** All threads that work on a job work on the same part of it, and all threads have finished
      the parts before it: what comes before a meeting is done by all before any of them starts
      what comes after. */
  lemma {:induction false} PartsApart(run: seq<State>, n: nat, k: nat, i: nat, j: nat)
    requires IsRun(run, n) && k < |run|
    ensures Sized(run[k])
    ensures i < |run[k].pcs| && j < |run[k].pcs| && run[k].pcs[i].Working? ==>
      var s, p := run[k], run[k].pcs[i].part;
      && (s.pcs[j].Working? ==> s.pcs[j] == s.pcs[i])
      && p >= 1 && |s.launched| >= 1 && WorkUpTo(s.launched, p - 1) <= s.did[j]
  {
    hide IsRun, Inv, DidOk, WorkUpTo;
    RunOk(run, n, k);
    var s := run[k];
    MetOf(s);
    if i < |s.pcs| && j < |s.pcs| && s.pcs[i].Working? {
      ViewAt(s, i);
      ViewAt(s, j);
      assert s.calls.left[i] <= s.calls.entered[j] && s.calls.left[j] <= s.calls.entered[i];
      MainAhead(s, i);
      AheadDid(j, ViewOf(s, j), CommonOf(s), s.pcs[i].part);
    }
  }

  /** A thread that has made the call before part p has done the parts before it. */
  lemma {:induction false} AheadDid(j: nat, v: View, c: Common, p: nat)
    requires ViewOk(j, v, c) && c.round.Launch? && !c.preparing && 1 <= p <= Parts(c.round.job)
    requires c.base + p <= v.entered
    ensures |c.launched| >= 1 && WorkUpTo(c.launched, p - 1) <= v.did
  {
    hide AllWork, WorkOf;
    var n := PartsDone(v.pc, v.left - c.base, c.round.job);
    assert n >= p - 1;
    FirstParts(c.launched[|c.launched| - 1], |c.launched| - 1, p - 1, n);
  }

  lemma {:induction false} FirstParts(job: Job, k: nat, m: nat, n: nat)
    requires m <= n
    ensures WorkOf(job, k, m) <= WorkOf(job, k, n)
  {
  }

  // ----- No deadlock, and the end -----

  lemma {:induction false} CallsBounded(i: nat, v: View, c: Common)
    requires ViewOk(i, v, c) && c.round.Stop?
    ensures v.entered <= c.base + 2
    ensures v.pc == Exited || v.pc == Joining ==> v.entered == c.base + 2
  {
    hide DidOk;
  }

  lemma {:induction false} ExitedOnlyAtStop(i: nat, v: View, c: Common)
    requires ViewOk(i, v, c)
    ensures v.pc == Exited || v.pc == Joining ==> c.round.Stop?
    ensures v.pc.InCall? ==> v.entered == v.left + 1
  {
    hide DidOk;
  }

  /** Among the threads inside the barrier, one with the fewest calls. */
  lemma {:induction false} FewestCalls(s: State, first: nat) returns (i: nat)
    requires Sized(s) && first < |s.pcs| && s.pcs[first].InCall?
    ensures i < |s.pcs| && s.pcs[i].InCall?
    ensures forall j :: 0 <= j < |s.pcs| && s.pcs[j].InCall? ==> s.calls.entered[j] >= s.calls.entered[i]
  {
    i := first;
    var j := 0;
    while j < |s.pcs|
      invariant 0 <= j <= |s.pcs| && i < |s.pcs| && s.pcs[i].InCall?
      invariant forall k :: 0 <= k < j && s.pcs[k].InCall? ==> s.calls.entered[k] >= s.calls.entered[i]
    {
      if s.pcs[j].InCall? && s.calls.entered[j] < s.calls.entered[i] {
        i := j;
      }
      j := j + 1;
    }
  }

  /** Unless the main thread is idle, some thread can go on, until all have exited. */
  lemma {:induction false} NoDeadlock(run: seq<State>, n: nat, k: nat) returns (i: nat)
    requires IsRun(run, n) && k < |run|
    ensures Sized(run[k])
    ensures run[k].pcs[0] == Idle || (forall j :: 0 <= j < |run[k].pcs| ==> run[k].pcs[j] == Exited)
            || (i < |run[k].pcs| && Can(run[k], i))
  {
    hide IsRun, Inv, ViewOk;
    RunOk(run, n, k);
    i := SomeStep(run[k]);
  }

  lemma {:induction false} SomeStep(s: State) returns (i: nat)
    requires Inv(s)
    ensures Sized(s)
    ensures s.pcs[0] == Idle || (forall j :: 0 <= j < |s.pcs| ==> s.pcs[j] == Exited) || (i < |s.pcs| && Can(s, i))
  {
    hide Inv, ViewOk;
    MetOf(s);
    i := 0;
    if free :| 0 <= free < |s.pcs| && !s.pcs[free].InCall? && s.pcs[free] !in {Idle, Exited, Joining} {
      i := free;
    } else if called :| 0 <= called < |s.pcs| && s.pcs[called].InCall? {
      i := FewestCalls(s, called);
      forall j | 0 <= j < |s.pcs| && s.pcs[0] != Idle ensures s.calls.entered[j] >= s.calls.entered[i] {
        OnlyMain(s, j);
        ViewAt(s, j);
        ViewAt(s, i);
        ExitedOnlyAtStop(j, ViewOf(s, j), CommonOf(s));
        if !s.pcs[j].InCall? {
          CallsBounded(i, ViewOf(s, i), CommonOf(s));
          CallsBounded(j, ViewOf(s, j), CommonOf(s));
        }
      }
      ViewAt(s, i);
      ExitedOnlyAtStop(i, ViewOf(s, i), CommonOf(s));
    } else {
      forall j | 1 <= j < |s.pcs| ensures s.pcs[j] == Exited {
        OnlyMain(s, j);
      }
    }
  }

  /** Steps a thread still needs when the pool is being destroyed. */
  function ToExit(pc: Pc): nat {
    match pc
    case Calling(l) => if l == Start then 10 else if l == Final then 3 else 7
    case InCall(l) => if l == Start || l == Done then 8 else if l == Final then 2 else 6
    case Deciding => 4
    case Joining => 1
    case _ => 0
  }

  function TotalToExit(pcs: seq<Pc>): nat {
    if pcs == [] then 0 else ToExit(pcs[0]) + TotalToExit(pcs[1..])
  }

  lemma {:induction false} TotalUpdate(pcs: seq<Pc>, i: nat, pc: Pc)
    requires i < |pcs|
    ensures TotalToExit(pcs[i := pc]) == TotalToExit(pcs) - ToExit(pcs[i]) + ToExit(pc)
  {
    if i > 0 {
      assert pcs[i := pc][1..] == pcs[1..][i - 1 := pc];
      TotalUpdate(pcs[1..], i - 1, pc);
    } else {
      assert pcs[0 := pc][1..] == pcs[1..];
    }
  }

  lemma {:induction false} StoppingView(i: nat, v: View, c: Common)
    requires ViewOk(i, v, c) && c.round.Stop?
    ensures match v.pc
      case Calling(l) => l == Go || l == Final || l == Start
      case InCall(l) => l == Go || l == Final || l == Start || l == Done
      case Working(_) => false
      case Assigning(_) => false
      case Arming(_) => false
      case _ => true
    ensures i == 0 ==> v.pc != InCall(Done) && v.pc != InCall(Start) && v.pc != Calling(Start)
  {
    hide DidOk;
  }

  /** Once the pool is being destroyed every step brings it closer to the end, and when no step
      is left all threads have exited: nobody is left behind in the barrier. */
  lemma {:induction false} StopReleasesAll(s: State, i: nat)
    requires Inv(s) && s.round.Stop? && i < |s.pcs|
    ensures Can(s, i) && !s.pcs[i].Assigning? && !s.pcs[i].Arming? ==>
              Step(s, i).round.Stop? && TotalToExit(Step(s, i).pcs) < TotalToExit(s.pcs)
    ensures (forall j :: 0 <= j < |s.pcs| ==> !Can(s, j)) ==> forall j :: 0 <= j < |s.pcs| ==> s.pcs[j] == Exited
  {
    hide Inv, ViewOk;
    MetOf(s);
    ViewAt(s, i);
    StoppingView(i, ViewOf(s, i), CommonOf(s));
    if Can(s, i) && !s.pcs[i].Assigning? && !s.pcs[i].Arming? {
      TotalUpdate(s.pcs, i, Step(s, i).pcs[i]);
      assert Step(s, i).pcs == s.pcs[i := Step(s, i).pcs[i]];
    }
    var j := SomeStep(s);
    ViewAt(s, 0);
    IdleOutside(ViewOf(s, 0), CommonOf(s));
  }

  // ----- When destruction ends -----

  /** A pool on which InitThreads has not run, or has run for a number of workers. */
  datatype Pool = Uninitialized | Started(workers: nat)

  predicate AllExited(s: State) { forall i :: 0 <= i < |s.pcs| ==> s.pcs[i] == Exited }

  /** A run in which the destructor has been entered. */
  ghost predicate IsStopping(run: seq<State>, n: nat) { IsRun(run, n) && run[|run| - 1].round.Stop? }

  /** Going on that way, all threads exit. */
  ghost predicate ExitsBy(run: seq<State>, more: seq<State>, n: nat) {
    IsRun(run + more, n) && AllExited((run + more)[|run + more| - 1])
  }

  /** The destructor's second call of the barrier has returned without InitThreads. */
  ghost predicate HasReturned(run: seq<B.State>) {
    B.IsUninitializedRun(run) && var ts := run[|run| - 1].threads; |ts| == 1 && ts[0].left == 2
  }

  /** The destructor can return: its two calls of the barrier do in some run, resp. every run
      in which it has been entered can go on until all threads have exited. */
  ghost predicate DestructionEnds(p: Pool) {
    match p
    case Uninitialized => exists run: seq<B.State> :: HasReturned(run)
    case Started(n) => forall run: seq<State> :: IsStopping(run, n) ==> exists more: seq<State> :: ExitsBy(run, more, n)
  }

  /** The destructor returns exactly when InitThreads has run before, for any number of workers. */
  lemma {:induction false} DestructionEndsIff(p: Pool)
    ensures DestructionEnds(p) <==> p.Started?
  {
    match p
    case Uninitialized =>
      forall run: seq<B.State> ensures !HasReturned(run) {
        if B.IsUninitializedRun(run) {
          B.SecondCallNeverReturns(run, |run| - 1);
        }
      }
    case Started(n) =>
      forall run: seq<State> | IsStopping(run, n) ensures exists more: seq<State> :: ExitsBy(run, more, n) {
        var more := UntilExited(run, n);
      }
  }

  /** Going on until all threads have exited. */
  lemma {:induction false} UntilExited(run: seq<State>, n: nat) returns (more: seq<State>)
    requires IsStopping(run, n)
    ensures ExitsBy(run, more, n)
    decreases TotalToExit(run[|run| - 1].pcs)
  {
    hide Inv, ViewOk, Step, Can, Init, StartLaunch, StartStop;
    var s := run[|run| - 1];
    RunOk(run, n, |run| - 1);
    MetOf(s);
    if i: nat :| i < |s.pcs| && Can(s, i) {
      StopReleasesAll(s, i);
      StoppedKind(s, i);
      var longer := run + [Step(s, i)];
      assert Next(s, Step(s, i));
      var rest := UntilExited(longer, n);
      more := [Step(s, i)] + rest;
      assert run + more == longer + rest;
    } else {
      more := [];
      assert run + more == run;
      StopReleasesAll(s, 0);
    }
  }

  lemma {:induction false} StoppedKind(s: State, i: nat)
    requires Inv(s) && s.round.Stop? && i < |s.pcs|
    ensures Sized(s) && !s.pcs[i].Assigning? && !s.pcs[i].Arming?
  {
    hide Inv, ViewOk;
    ViewAt(s, i);
    StoppingView(i, ViewOf(s, i), CommonOf(s));
  }
}
