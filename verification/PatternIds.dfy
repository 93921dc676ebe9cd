/** The pattern ids a partition needs, and the table that has room for so many of them. */
module PatternIds {
  import opened Encodings
  import opened CtlCodec
  import opened Elements

  /** Pattern id of a substructure element. */
  function ElemPid(e: Element): nat
    requires Shaped(e)
  {
    if e.inst.ty.IsBlock() then e.inst.ty.Code() * PATTERN_ID_OFFSET + e.Size() / e.inst.ty.Alignment()
    else e.inst.ty.Code() * PATTERN_ID_OFFSET + e.inst.dim
  }

  lemma {:induction false} ElemPidIs(e: Element)
    requires Shaped(e)
    ensures ElemPid(e) == PatternId(e.inst)
  {
    if e.inst.ty.IsBlock() {
      BlockDim(e.inst.ty.Alignment(), e.inst.dim);
    }
  }

  lemma {:induction false} ElemPidDecodes(e: Element)
    requires Shaped(e) && e.IsPattern() && e.inst.dim < PATTERN_ID_OFFSET
    ensures PATTERN_ID_OFFSET <= ElemPid(e) < 21 * PATTERN_ID_OFFSET
    ensures Inst(PidType(ElemPid(e)), PidDim(ElemPid(e))) == e.inst
  {
    ElemPidIs(e);
    PatternIdDecodes(e.inst);
    assert FromCode(e.inst.ty.Code()) == e.inst.ty;
  }

  lemma {:induction false} BlockDim(a: nat, d: nat)
    requires 1 <= a <= 8
    ensures a * d / a == d
  {
    if a == 1 {} else if a == 2 {} else if a == 3 {} else if a == 4 {}
    else if a == 5 {} else if a == 6 {} else if a == 7 {} else { assert a == 8; }
  }

  // ----- Ids of a row -----

  /** Largest distance of neighbouring columns. */
  function MaxStep(cols: seq<int>): nat {
    if |cols| < 2 then 0
    else
      var m, s := MaxStep(cols[..|cols| - 1]), cols[|cols| - 1] - cols[|cols| - 2];
      if s > m then s else m
  }

  lemma {:induction false} MaxStepFacts(cols: seq<int>)
    ensures forall i :: 0 < i < |cols| ==> cols[i] - cols[i - 1] <= MaxStep(cols)
    ensures MaxStep(cols) == 0 || exists i :: 0 < i < |cols| && MaxStep(cols) == cols[i] - cols[i - 1]
  {
    if |cols| >= 2 {
      MaxStepFacts(cols[..|cols| - 1]);
    }
  }

  /** Id of the delta unit for some columns. */
  function ColPid(cols: seq<int>): nat { DeltaPatternId(DeltaSize(MaxStep(cols))) }

  /** Ids needed when the buffer is flushed. */
  function FlushIds(cols: seq<int>): set<nat> { if cols == [] then {} else {ColPid(cols)} }

  /** Ids needed when one more element is read with `cols` buffered, and the buffer after that. */
  function StepIds(e: Element, cols: seq<int>): set<nat>
    requires Shaped(e)
  {
    if e.IsPattern() then FlushIds(cols) + {ElemPid(e)}
    else if |cols| == CTL_SIZE_MAX then FlushIds(cols)
    else {}
  }

  function StepCols(e: Element, cols: seq<int>): seq<int> {
    if e.IsPattern() then [] else if |cols| == CTL_SIZE_MAX then [e.col] else cols + [e.col]
  }

  function ElemsIds(es: seq<Element>, cols: seq<int>): set<nat>
    requires AllShaped(es)
  {
    if es == [] then FlushIds(cols) else StepIds(es[0], cols) + ElemsIds(es[1..], StepCols(es[0], cols))
  }

  lemma {:induction false} ElemsIdsNext(es: seq<Element>, cols: seq<int>, i: nat)
    requires AllShaped(es) && i < |es|
    ensures AllShaped(es[i..]) && AllShaped(es[i + 1..]) && Shaped(es[i])
    ensures ElemsIds(es[i..], cols) == StepIds(es[i], cols) + ElemsIds(es[i + 1..], StepCols(es[i], cols))
  {
    assert es[i..][1..] == es[i + 1..];
  }

  /** Single elements right before element k. */
  function SinglesBefore(es: seq<Element>, k: nat): (r: nat)
    requires k <= |es|
    ensures r <= k
  {
    if k == 0 || es[k - 1].IsPattern() then 0 else SinglesBefore(es, k - 1) + 1
  }

  /** How many of them wait for their unit: those behind the last full unit. */
  function Waiting(es: seq<Element>, k: nat): (n: nat)
    requires k <= |es|
    ensures n <= SinglesBefore(es, k) && n <= CTL_SIZE_MAX
  {
    var r := SinglesBefore(es, k);
    if r == 0 then 0 else (r - 1) % CTL_SIZE_MAX + 1
  }

  function ColsBefore(es: seq<Element>, k: nat): seq<int>
    requires k <= |es|
  {
    var n := Waiting(es, k);
    seq(n, i requires 0 <= i < n => es[k - n + i].col)
  }

  /** The id is needed at element k: of the substructure there, or of the single elements before
      it, which become one unit when a substructure or the end follows or the unit is full. */
  predicate NeededAt(es: seq<Element>, k: nat, id: nat)
    requires AllShaped(es) && k <= |es|
  {
    || (k < |es| && es[k].IsPattern() && id == ElemPid(es[k]))
    || (ColsBefore(es, k) != [] && id == ColPid(ColsBefore(es, k))
        && (k == |es| || es[k].IsPattern() || Waiting(es, k) == CTL_SIZE_MAX))
  }

  /** The ids of a row are those needed somewhere in it. */
  lemma {:induction false} IdsAre(es: seq<Element>, id: nat)
    requires AllShaped(es)
    ensures id in ElemsIds(es, []) <==> exists k :: 0 <= k <= |es| && NeededAt(es, k, id)
  {
    hide NeededAt, ElemsIds;
    assert es[0..] == es && ColsBefore(es, 0) == [];
    IdsFrom(es, 0, id);
  }

  lemma {:induction false} IdsFrom(es: seq<Element>, k: nat, id: nat)
    requires AllShaped(es) && k <= |es|
    ensures id in ElemsIds(es[k..], ColsBefore(es, k)) <==> exists j :: k <= j <= |es| && NeededAt(es, j, id)
    decreases |es| - k
  {
    hide NeededAt, ElemsIds, StepIds, StepCols, ColsBefore;
    if k < |es| {
      ElemsIdsNext(es, ColsBefore(es, k), k);
      IdsAt(es, k, id);
      IdsFrom(es, k + 1, id);
    } else {
      IdsAtEnd(es, id);
    }
  }

  lemma {:induction false} IdsAtEnd(es: seq<Element>, id: nat)
    requires AllShaped(es)
    ensures id in ElemsIds(es[|es|..], ColsBefore(es, |es|)) <==> NeededAt(es, |es|, id)
  {
  }

  lemma {:induction false} IdsAt(es: seq<Element>, k: nat, id: nat)
    requires AllShaped(es) && k < |es|
    ensures id in StepIds(es[k], ColsBefore(es, k)) <==> NeededAt(es, k, id)
    ensures StepCols(es[k], ColsBefore(es, k)) == ColsBefore(es, k + 1)
  {
    hide ElemPid, ColPid;
    NextWaiting(es, k);
  }

  lemma {:induction false} NextWaiting(es: seq<Element>, k: nat)
    requires k < |es|
    ensures Waiting(es, k + 1)
      == if es[k].IsPattern() then 0 else if Waiting(es, k) == CTL_SIZE_MAX then 1 else Waiting(es, k) + 1
  {
  }

  /** The elements of a row before the column behind `rs`. */
  function SplitAt(es: seq<Element>, rs: nat): (k: nat)
    ensures k <= |es|
  {
    if es == [] || es[0].col > rs then 0 else 1 + SplitAt(es[1..], rs)
  }

  lemma {:induction false} SplitAtIs(es: seq<Element>, rs: nat, k: nat)
    requires k <= |es| && (forall i :: 0 <= i < k ==> es[i].col <= rs) && (k < |es| ==> es[k].col > rs)
    ensures SplitAt(es, rs) == k
  {
    if k > 0 {
      SplitAtIs(es[1..], rs, k - 1);
    }
  }

  /** Ids of a row; in a symmetric matrix the two sides of it are compiled apart. */
  function LineIds(es: seq<Element>, symmetric: bool, rs: nat): set<nat>
    requires AllShaped(es)
  {
    if !symmetric then ElemsIds(es, [])
    else ElemsIds(es[..SplitAt(es, rs)], []) + ElemsIds(es[SplitAt(es, rs)..], [])
  }

  lemma {:induction false} LineIdsSplit(es: seq<Element>, rs: nat, k: nat)
    requires AllShaped(es) && k <= |es| && (forall i :: 0 <= i < k ==> es[i].col <= rs) && (k < |es| ==> es[k].col > rs)
    ensures AllShaped(es[..k]) && AllShaped(es[k..])
    ensures LineIds(es, true, rs) == ElemsIds(es[..k], []) + ElemsIds(es[k..], [])
  {
    SplitAtIs(es, rs, k);
  }

  predicate LinesShaped(lines: seq<seq<Element>>) { forall i :: 0 <= i < |lines| ==> AllShaped(lines[i]) }

  /** Ids of some rows. */
  function LinesIds(lines: seq<seq<Element>>, symmetric: bool, rs: nat): set<nat>
    requires LinesShaped(lines)
  {
    if lines == [] then {} else LineIds(lines[0], symmetric, rs) + LinesIds(lines[1..], symmetric, rs)
  }

  lemma {:induction false} LinesIdsNext(lines: seq<seq<Element>>, symmetric: bool, rs: nat, i: nat)
    requires LinesShaped(lines) && i < |lines|
    ensures LinesShaped(lines[i..]) && LinesShaped(lines[i + 1..]) && AllShaped(lines[i])
    ensures LinesIds(lines[i..], symmetric, rs)
      == LineIds(lines[i], symmetric, rs) + LinesIds(lines[i + 1..], symmetric, rs)
  {
    assert lines[i..][1..] == lines[i + 1..];
  }

  function Joined(lines: seq<seq<Element>>): seq<Element> {
    if lines == [] then [] else lines[0] + Joined(lines[1..])
  }

  // ----- The substructures among them -----

  /** Ids of the substructures of a list of elements. */
  function SubIds(es: seq<Element>): set<nat>
    requires AllShaped(es)
  {
    if es == [] then {} else (if es[0].IsPattern() then {ElemPid(es[0])} else {}) + SubIds(es[1..])
  }

  const DELTA_IDS: set<nat> := {8, 16, 32, 64}

  lemma {:induction false} SubIdsConcat(a: seq<Element>, b: seq<Element>)
    requires AllShaped(a) && AllShaped(b)
    ensures AllShaped(a + b) && SubIds(a + b) == SubIds(a) + SubIds(b)
  {
    if a == [] {
      assert a + b == b;
    } else {
      assert (a + b)[1..] == a[1..] + b;
      SubIdsConcat(a[1..], b);
    }
  }

  lemma {:induction false} ElemsIdsBounds(es: seq<Element>, cols: seq<int>)
    requires AllShaped(es)
    ensures SubIds(es) <= ElemsIds(es, cols) <= SubIds(es) + DELTA_IDS
  {
    if es != [] {
      ElemsIdsBounds(es[1..], StepCols(es[0], cols));
    }
  }

  lemma {:induction false} LineIdsBounds(es: seq<Element>, symmetric: bool, rs: nat)
    requires AllShaped(es)
    ensures SubIds(es) <= LineIds(es, symmetric, rs) <= SubIds(es) + DELTA_IDS
  {
    if symmetric {
      var k := SplitAt(es, rs);
      ElemsIdsBounds(es[..k], []);
      ElemsIdsBounds(es[k..], []);
      SubIdsConcat(es[..k], es[k..]);
      assert es[..k] + es[k..] == es;
    } else {
      ElemsIdsBounds(es, []);
    }
  }

  /** Rows need the ids of their substructures, and at most the four of delta units besides. */
  lemma {:induction false} LinesIdsBounds(lines: seq<seq<Element>>, symmetric: bool, rs: nat)
    requires LinesShaped(lines)
    ensures AllShaped(Joined(lines))
    ensures SubIds(Joined(lines)) <= LinesIds(lines, symmetric, rs) <= SubIds(Joined(lines)) + DELTA_IDS
    decreases |lines|
  {
    if lines != [] {
      hide LineIds, SubIds;
      LinesIdsBounds(lines[1..], symmetric, rs);
      LineIdsBounds(lines[0], symmetric, rs);
      SubIdsConcat(lines[0], Joined(lines[1..]));
    }
  }

  // ----- The table of ids -----

  /** `ids` have been looked up in a table that knew `before`: that works exactly when all of
      them fit, and then the table knows them, too. */
  predicate Learned(before: set<nat>, ids: set<nat>, after: set<nat>, ok: bool) {
    && (ok <==> |before + ids| <= MAX_PATTERNS)
    && (ok ==> after == before + ids)
  }

  lemma {:induction false} LearnedThen(before: set<nat>, ids: set<nat>, mid: set<nat>, more: set<nat>, after: set<nat>,
                                       ok: bool)
    requires Learned(before, ids, mid, true) && Learned(mid, more, after, ok)
    ensures Learned(before, ids + more, after, ok)
  {
    assert before + (ids + more) == mid + more;
  }

  lemma {:induction false} LearnedStop(before: set<nat>, ids: set<nat>, mid: set<nat>, more: set<nat>, after: set<nat>)
    requires Learned(before, ids, mid, false)
    ensures Learned(before, ids + more, after, false)
  {
    FewerIn(before + ids, before + (ids + more));
  }

  lemma {:induction false} LearnedNothing(before: set<nat>)
    requires |before| <= MAX_PATTERNS
    ensures Learned(before, {}, before, true)
  {
    assert before + {} == before;
  }

  /** `rest` of the ids `all` is still to be looked up. */
  predicate Reading(before: set<nat>, rest: set<nat>, all: set<nat>, now: set<nat>) {
    now + rest == before + all && |now| <= MAX_PATTERNS
  }

  lemma {:induction false} ReadingStart(before: set<nat>, all: set<nat>)
    requires |before| <= MAX_PATTERNS
    ensures Reading(before, all, all, before)
  {
  }

  lemma {:induction false} ReadingNext(before: set<nat>, more: set<nat>, rest: set<nat>, all: set<nat>, now: set<nat>,
                                       after: set<nat>, ok: bool)
    requires Reading(before, more + rest, all, now) && Learned(now, more, after, ok)
    ensures ok ==> Reading(before, rest, all, after)
    ensures !ok ==> Learned(before, all, after, false)
  {
    if ok {
      assert after + rest == now + (more + rest);
    } else {
      FewerIn(now + more, before + all);
    }
  }

  lemma {:induction false} ReadingEnd(before: set<nat>, all: set<nat>, now: set<nat>)
    requires Reading(before, {}, all, now)
    ensures Learned(before, all, now, true)
  {
    assert now == now + {};
  }

  lemma {:induction false} FewerIn<T>(a: set<T>, b: set<T>)
    requires a <= b
    ensures |a| <= |b|
  {
    assert b == a + (b - a);
  }
}
