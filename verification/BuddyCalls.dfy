/** Whole calls on the buddy arena at atomic grain (src/buddy.rs:187-327): what an allocation
    ends with while other threads interfere, and when it may end with nothing.
 */
module BuddyCalls {
  import opened Words
  import opened Bitmaps
  import opened Blocks
  import opened BuddyInterleaving
  import opened BuddyMerging

  /** The step `es[j]` ends the call for order `target` that thread `t` began at `es[i]`. */
  ghost predicate IsCall(c: Config, dirty: set<nat>, es: seq<Event>, i: nat, j: nat, t: nat, target: nat)
    requires c.Valid()
  {
    && i < j < |es| && es[i] == StartAlloc(t, target) && Before(c, dirty, es, i).At(t).Idle? && es[j] == Step(t)
    && (forall k :: i < k <= j ==> !Before(c, dirty, es, k).At(t).Idle?)
    && Before(c, dirty, es, j + 1).At(t).Idle?
  }

  // ----- the order of the block a call ends with

  /** The thread is in a call for order `target`: searching at orders from there up, or with a
      block in hand that is being split down to it. */
  predicate Serving(c: Config, target: nat, pc: Pc)
  {
    match pc
    case LoadSummary(tg) => tg == target
    case Bump(tg, _, o) => tg == target <= o <= c.maxOrder
    case LoadWord(tg, _, o, _, _) => tg == target <= o <= c.maxOrder
    case ClaimBit(tg, _, o, _, _, _) => tg == target <= o <= c.maxOrder
    case AllocCheck(tg, h, _) => tg == target <= h.order
    case AllocClear(tg, h) => tg == target <= h.order
    case SplitRaise(tg, h) => tg == target < h.order
    case SplitPublish(tg, h) => tg == target < h.order
    case ZeroCheck(h, _) => h.order == target
    case Zeroing(h, _) => h.order == target
    case RecordAlloc(h) => h.order == target
    case _ => false
  }

  /** Where the loop over the orders goes on from `order`. */
  lemma {:induction false} NextOrderIs(c: Config, target: nat, summary: Option<set<nat>>, order: nat)
    requires target <= order
    ensures var pc := NextOrder(c, target, summary, order);
            if pc.Idle? then target > c.maxOrder || (summary.None? && order > c.maxOrder)
            else && pc.Bump? && Serving(c, target, pc)
                 && (pc.summary.None? ==> pc.order == if summary.None? then order else target)
    decreases summary.Some?, c.maxOrder + 1 - order
  {
    if order > c.maxOrder {
      if summary.Some? { NextOrderIs(c, target, None, target); }
    } else if summary.Some? && order !in summary.value {
      NextOrderIs(c, target, summary, order + 1);
    }
  }

  lemma ServingStep(c: Config, s: State, t: nat, target: nat)
    requires c.Valid() && Serving(c, target, s.At(t))
    ensures var s' := Apply(c, s, Step(t));
            || Serving(c, target, s'.At(t))
            || (s'.At(t).Idle? && s.At(t).RecordAlloc? && s'.live == s.live[s.nextHandle := s.At(t).h])
            || (s'.At(t).Idle? && (s.At(t).LoadSummary? || s.At(t).LoadWord?) && s'.live == s.live)
  {
    hide NextOrder, Lo, Hi, Pow2, WordBits, Least, Config.ScanWords, Config.ActualWords;
    var pc := s.At(t);
    if pc.LoadSummary? { NextOrderIs(c, target, Some(s.summary), target); }
    if pc.LoadWord? { NextOrderIs(c, target, pc.summary, pc.order + 1); }
  }

  lemma BusyStays(c: Config, s: State, e: Event, t: nat)
    requires c.Valid() && !s.At(t).Idle? && e != Step(t)
    ensures Apply(c, s, e).At(t) == s.At(t)
  {
    hide StepOf;
  }

  lemma {:induction false} ServingRun(
    c: Config, dirty: set<nat>, es: seq<Event>, i: nat, j: nat, t: nat, target: nat, k: nat)
    requires c.Valid() && IsCall(c, dirty, es, i, j, t, target) && i < k <= j
    ensures Serving(c, target, Before(c, dirty, es, k).At(t))
    decreases k
  {
    hide Inv, Run, StepOf, Before;
    BeforeStep(c, dirty, es, k - 1);
    if k > i + 1 {
      ServingRun(c, dirty, es, i, j, t, target, k - 1);
      if es[k - 1] == Step(t) {
        ServingStep(c, Before(c, dirty, es, k - 1), t, target);
      } else {
        BusyStays(c, Before(c, dirty, es, k - 1), es[k - 1], t);
      }
    }
  }

  /** Over any interleaving a call ends with one new buffer, on a block of exactly the order
      asked for, or with none. */
  lemma CallOutcome(c: Config, dirty: set<nat>, es: seq<Event>, i: nat, j: nat, t: nat, target: nat)
    requires c.Valid() && IsCall(c, dirty, es, i, j, t, target)
    ensures var s, s' := Before(c, dirty, es, j), Before(c, dirty, es, j + 1);
            || s'.live == s.live
            || (s.nextHandle !in s.live && exists h: Block :: h.order == target && s'.live == s.live[s.nextHandle := h])
  {
    hide Tiling, BytesExact, ZeroPolicy, Run, StepOf, Before;
    ServingRun(c, dirty, es, i, j, t, target, j);
    BeforeStep(c, dirty, es, j);
    ServingStep(c, Before(c, dirty, es, j), t, target);
  }

  // ----- when a call may end with nothing

  ghost predicate InArena(c: Config, x: Block)
  {
    x.order <= c.maxOrder && x.idx < c.Blocks(x.order)
  }

  lemma WordScanned(c: Config, x: Block)
    requires c.Valid() && InArena(c, x)
    ensures WordOf(c.bits, x.idx) < c.ScanWords(x.order)
  {
    hide WordOf, Pow2;
    CeilCovers(c.Blocks(x.order), c.bits, c.ScanWords(x.order));
    WordInRange(c.bits, x.idx, c.Blocks(x.order), c.ScanWords(x.order));
  }

  /** The scan of the order of `x` has not passed its word. */
  ghost predicate Ahead(c: Config, x: Block, start: nat, i: nat)
    requires c.Valid() && InArena(c, x)
  {
    WordScanned(c, x);
    start < c.ScanWords(x.order) && i <= ScanDistance(c.ScanWords(x.order), start, WordOf(c.bits, x.idx))
  }

  /** The scan of all orders has not passed `x`. */
  ghost predicate NotPassed(c: Config, x: Block, pc: Pc)
    requires c.Valid() && InArena(c, x)
  {
    match pc
    case Bump(_, summary, o) => summary.None? ==> o <= x.order
    case LoadWord(_, summary, o, start, i) =>
      summary.None? ==> o <= x.order && (o == x.order ==> Ahead(c, x, start, i))
    case ClaimBit(_, summary, o, start, i, _) =>
      summary.None? ==> o <= x.order && (o == x.order ==> Ahead(c, x, start, i))
    case _ => true
  }

  lemma LoadAhead(c: Config, s: State, x: Block, start: nat, i: nat)
    requires c.Valid() && InArena(c, x) && x in s.free && Ahead(c, x, start, i)
    ensures WordBits(s.free, x.order, c.bits, (start + i) % c.ScanWords(x.order)) == {} ==>
              i + 1 < c.ScanWords(x.order) && Ahead(c, x, start, i + 1)
  {
    hide Config.ScanWords;
    WordScanned(c, x);
    ScanReaches(c.ScanWords(x.order), start, WordOf(c.bits, x.idx), i);
  }

  lemma Starts(c: Config, x: Block, start: nat)
    requires c.Valid() && InArena(c, x) && start < c.ScanWords(x.order)
    ensures Ahead(c, x, start, 0)
  {
  }

  /** While a block that can serve the call stays free, the call neither passes it nor gives up. */
  lemma NotPassedStep(c: Config, s: State, t: nat, target: nat, x: Block)
    requires c.Valid() && InArena(c, x) && target <= x.order && x in s.free
    requires Serving(c, target, s.At(t)) && NotPassed(c, x, s.At(t))
    ensures var s' := Apply(c, s, Step(t));
            NotPassed(c, x, s'.At(t)) && (s'.At(t).Idle? ==> s.At(t).RecordAlloc?)
  {
    hide NextOrder, Lo, Hi, Pow2, WordBits, Least, Config.ScanWords, Config.ActualWords, Ahead;
    var pc := s.At(t);
    if pc.LoadSummary? { NextOrderIs(c, target, Some(s.summary), target); }
    if pc.Bump? && pc.order == x.order {
      var cur := if pc.order in s.cursors then s.cursors[pc.order] else 0;
      Starts(c, x, cur % c.ScanWords(pc.order));
    }
    if pc.LoadWord? {
      NextOrderIs(c, target, pc.summary, pc.order + 1);
      if pc.summary.None? && pc.order == x.order { LoadAhead(c, s, x, pc.start, pc.i); }
    }
  }

  lemma {:induction false} NotPassedRun(
    c: Config, dirty: set<nat>, es: seq<Event>, i: nat, j: nat, t: nat, target: nat, x: Block, k: nat)
    requires c.Valid() && IsCall(c, dirty, es, i, j, t, target) && i < k <= j && InArena(c, x) && target <= x.order
    requires forall n :: i < n <= j ==> x in Before(c, dirty, es, n).free
    ensures NotPassed(c, x, Before(c, dirty, es, k).At(t))
    decreases k
  {
    hide Inv, Run, StepOf, Before, InArena;
    BeforeStep(c, dirty, es, k - 1);
    if k > i + 1 {
      NotPassedRun(c, dirty, es, i, j, t, target, x, k - 1);
      if es[k - 1] == Step(t) {
        ServingRun(c, dirty, es, i, j, t, target, k - 1);
        NotPassedStep(c, Before(c, dirty, es, k - 1), t, target, x);
      } else {
        BusyStays(c, Before(c, dirty, es, k - 1), es[k - 1], t);
      }
    }
  }

  lemma NewBuffer(s: State, h: Block)
    requires Shaped(s)
    ensures s.live[s.nextHandle := h] != s.live
  {
    assert s.nextHandle in s.live[s.nextHandle := h];
  }

  /** Over any interleaving: a call that ends without a new buffer found every block that could
      have served it taken at some moment between its first step and its last. */
  lemma FailedCallFoundAllTaken(
    c: Config, dirty: set<nat>, es: seq<Event>, i: nat, j: nat, t: nat, target: nat, x: Block)
    requires c.Valid() && IsCall(c, dirty, es, i, j, t, target) && InArena(c, x) && target <= x.order
    requires Before(c, dirty, es, j + 1).live == Before(c, dirty, es, j).live
    ensures exists n :: i < n <= j && x !in Before(c, dirty, es, n).free
  {
    hide Tiling, BytesExact, ZeroPolicy, Run, StepOf, Before, InArena, NotPassed;
    if forall n :: i < n <= j ==> x in Before(c, dirty, es, n).free {
      var s := Before(c, dirty, es, j);
      NotPassedRun(c, dirty, es, i, j, t, target, x, j);
      ServingRun(c, dirty, es, i, j, t, target, j);
      BeforeStep(c, dirty, es, j);
      NotPassedStep(c, s, t, target, x);
      ServingStep(c, s, t, target);
      if s.At(t).RecordAlloc? { NewBuffer(s, s.At(t).h); }
    }
  }

  // ----- what a return ends with

  /** The step `es[j]` ends the return of `handle` that thread `t` began at `es[i]`. */
  ghost predicate IsReturn(c: Config, dirty: set<nat>, es: seq<Event>, i: nat, j: nat, t: nat, handle: nat)
    requires c.Valid()
  {
    && i < j < |es| && es[i] == StartRelease(t, handle) && es[j] == Step(t)
    && Before(c, dirty, es, i).At(t).Idle? && handle in Before(c, dirty, es, i).live
    && (forall k :: i < k <= j ==> !Before(c, dirty, es, k).At(t).Idle?)
    && Before(c, dirty, es, j + 1).At(t).Idle?
  }

  /** The zeroed bits of block `x` are set up to minimum block `end`. */
  ghost predicate Marked(s: State, x: Block, end: nat)
  {
    forall u: nat :: Lo(x) <= u < end ==> u in s.zeroed
  }

  /** The thread is returning `x`: it scrubs and marks it, then climbs with it inside what it holds. */
  ghost predicate Bringing(c: Config, s: State, x: Block, pc: Pc)
  {
    match pc
    case RecordFree(h) => h == x
    case Scrubbing(h, _) => h == x && c.zeroPolicy
    case MarkZeroed(h, u) => h == x && c.zeroPolicy && Lo(x) <= u < Hi(x) && Marked(s, x, u)
    case Climb(h) => Inside(x, h) && (c.zeroPolicy ==> Marked(s, x, Hi(x)))
    case ClimbCheck(h, _, _) => Inside(x, h) && (c.zeroPolicy ==> Marked(s, x, Hi(x)))
    case ClimbClear(h, _) => Inside(x, h) && (c.zeroPolicy ==> Marked(s, x, Hi(x)))
    case Raise(h) => Inside(x, h) && (c.zeroPolicy ==> Marked(s, x, Hi(x)))
    case Publish(h) => Inside(x, h) && (c.zeroPolicy ==> Marked(s, x, Hi(x)))
    case _ => false
  }

  lemma ZeroedGrows(c: Config, s: State, e: Event)
    requires c.Valid()
    ensures s.zeroed <= Apply(c, s, e).zeroed
  {
    hide Lo, Hi, Pow2, WordBits, Least, NextOrder, AfterSplit, AfterScrub, Config.ScanWords, Config.ActualWords;
  }

  lemma BringingStep(c: Config, s: State, t: nat, x: Block)
    requires c.Valid() && Bringing(c, s, x, s.At(t))
    ensures var s' := Apply(c, s, Step(t));
            if s.At(t).Publish? then s'.At(t).Idle? && s.At(t).h in s'.free else Bringing(c, s', x, s'.At(t))
  {
    hide Lo, Hi, Pow2, WordBits, Least, NextOrder, AfterSplit, Config.ScanWords, Config.ActualWords, Inside;
    BlockNonempty(x);
    InSelf(x);
    var pc := s.At(t);
    if pc.Climb? { UpOnce(x, pc.h); }
  }

  lemma InSelf(x: Block)
    ensures Inside(x, x)
  {
  }

  lemma UpOnce(x: Block, h: Block)
    requires Inside(x, h)
    ensures Inside(x, Parent(h))
  {
    InsideTrans(x, h, Parent(h));
  }

  lemma BringingStays(c: Config, s: State, e: Event, t: nat, x: Block)
    requires c.Valid() && Bringing(c, s, x, s.At(t)) && e != Step(t)
    ensures Bringing(c, Apply(c, s, e), x, Apply(c, s, e).At(t))
  {
    hide Lo, Hi, Inside, StepOf;
    ZeroedGrows(c, s, e);
    BusyStays(c, s, e, t);
  }

  lemma {:induction false} BringingRun(
    c: Config, dirty: set<nat>, es: seq<Event>, i: nat, j: nat, t: nat, handle: nat, k: nat)
    requires c.Valid() && IsReturn(c, dirty, es, i, j, t, handle) && i < k <= j
    ensures Bringing(c, Before(c, dirty, es, k), Before(c, dirty, es, i).live[handle], Before(c, dirty, es, k).At(t))
    decreases k
  {
    hide Inv, Run, StepOf, Before, Bringing;
    BeforeStep(c, dirty, es, k - 1);
    if k == i + 1 {
      ReturnBegun(c, Before(c, dirty, es, i), t, handle);
    } else {
      BringingRun(c, dirty, es, i, j, t, handle, k - 1);
      var s, x := Before(c, dirty, es, k - 1), Before(c, dirty, es, i).live[handle];
      if es[k - 1] == Step(t) { BringingStep(c, s, t, x); } else { BringingStays(c, s, es[k - 1], t, x); }
    }
  }

  lemma ReturnBegun(c: Config, s: State, t: nat, handle: nat)
    requires c.Valid() && s.At(t).Idle? && handle in s.live
    ensures var s' := Apply(c, s, StartRelease(t, handle)); Bringing(c, s', s.live[handle], s'.At(t))
  {
  }

  /** Over any interleaving a return ends by publishing a block that contains the one returned,
      and under the zero policy every minimum block of it is marked as scrubbed. */
  lemma ReturnOutcome(c: Config, dirty: set<nat>, es: seq<Event>, i: nat, j: nat, t: nat, handle: nat)
    requires c.Valid() && IsReturn(c, dirty, es, i, j, t, handle)
    ensures var x, s := Before(c, dirty, es, i).live[handle], Before(c, dirty, es, j + 1);
            && (exists h :: h in s.free && Inside(x, h))
            && (c.zeroPolicy ==> forall u: nat :: Inside(Block(0, u), x) ==> u in s.zeroed)
  {
    hide Inv, Run, StepOf, Before, Inside, Lo, Hi;
    var x, s := Before(c, dirty, es, i).live[handle], Before(c, dirty, es, j);
    BringingRun(c, dirty, es, i, j, t, handle, j);
    BeforeStep(c, dirty, es, j);
    BringingStep(c, s, t, x);
    ZeroedGrows(c, s, es[j]);
    forall u: nat | c.zeroPolicy && Inside(Block(0, u), x) ensures u in Before(c, dirty, es, j + 1).zeroed {
      UnitInRange(u, x);
    }
  }
}
