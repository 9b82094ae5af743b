/** Stretches of a run in which one thread of the interleaved buddy allocator (src/buddy.rs)
    works alone, from one point of an operation to a later one.
 */
module SoloRuns {
  import opened Words
  import opened Bitmaps
  import opened Blocks
  import opened BuddyInterleaving

  /** `b` differs from `a` at most in the bytes, the counters and what thread `t` is doing. */
  ghost predicate Undisturbed(a: State, b: State, t: nat)
  {
    && b.free == a.free && b.summary == a.summary && b.cursors == a.cursors
    && b.live == a.live && b.nextHandle == a.nextHandle
    && forall u: nat :: u != t ==> b.At(u) == a.At(u)
  }

  /** The events added to the run are those of thread `t`. */
  ghost predicate Extends(es: seq<Event>, es': seq<Event>, t: nat)
  {
    es <= es' && forall k :: |es| <= k < |es'| ==> !es'[k].Write? && es'[k].t == t
  }

  /** How many times the run has made a block free. */
  ghost function Gains(c: Config, s: State, es: seq<Event>): nat
    requires c.Valid()
  {
    if es == [] then 0
    else
      var before := Run(c, s, es[..|es| - 1]);
      Gains(c, s, es[..|es| - 1]) + |Apply(c, before, es[|es| - 1]).free - before.free|
  }

  lemma GainsSnoc(c: Config, s: State, es: seq<Event>, e: Event)
    requires c.Valid()
    ensures Gains(c, s, es + [e])
            == Gains(c, s, es) + |Apply(c, Run(c, s, es), e).free - Run(c, s, es).free|
  {
    assert (es + [e])[..|es|] == es;
  }

  lemma NoGain(a: set<Block>, b: set<Block>)
    requires b <= a
    ensures |b - a| == 0
  {
    assert b - a == {};
  }

  lemma SoloStep(c: Config, s: State, es: seq<Event>, cur: State, t: nat) returns (es': seq<Event>, next: State)
    requires c.Valid() && cur == Run(c, s, es)
    ensures Extends(es, es', t)
    ensures next == Run(c, s, es') && next == Apply(c, cur, Step(t)) && next.At(t) == StepOf(c, cur, cur.At(t)).1
    ensures forall u: nat :: u != t ==> next.At(u) == cur.At(u)
    ensures next.free <= cur.free ==> Gains(c, s, es') == Gains(c, s, es)
  {
    hide StepOf, Run, Gains;
    es', next := Advance(c, s, es, cur, Step(t));
    GainsSnoc(c, s, es, Step(t));
    if next.free <= cur.free { NoGain(cur.free, next.free); }
  }

  /** Zeroing one minimum block after the other. */
  lemma {:induction false} ZeroingRuns(c: Config, s: State, es: seq<Event>, cur: State, t: nat, h: Block, u: nat)
    returns (es': seq<Event>, next: State)
    requires c.Valid() && cur == Run(c, s, es) && cur.At(t) == Zeroing(h, u)
    ensures Extends(es, es', t) && Gains(c, s, es') == Gains(c, s, es)
    ensures next == Run(c, s, es') && next.At(t) == RecordAlloc(h) && Undisturbed(cur, next, t)
    decreases Hi(h) - u
  {
    hide Gains, Run, Hi, Lo, NextOrder, WordBits, Least;
    es', next := SoloStep(c, s, es, cur, t);
    if u + 1 < Hi(h) { es', next := ZeroingRuns(c, s, es', next, t, h, u + 1); }
  }

  /** The check whether the block is zeroed already, and the zeroing if it is not. */
  lemma {:induction false} ZeroCheckRuns(c: Config, s: State, es: seq<Event>, cur: State, t: nat, h: Block, u: nat)
    returns (es': seq<Event>, next: State)
    requires c.Valid() && cur == Run(c, s, es) && cur.At(t) == ZeroCheck(h, u)
    ensures Extends(es, es', t) && Gains(c, s, es') == Gains(c, s, es)
    ensures next == Run(c, s, es') && next.At(t) == RecordAlloc(h) && Undisturbed(cur, next, t)
    decreases Hi(h) - u
  {
    hide Gains, Run, Hi, Lo, NextOrder, WordBits, Least;
    es', next := SoloStep(c, s, es, cur, t);
    if u !in cur.zeroed {
      es', next := ZeroingRuns(c, s, es', next, t, h, Lo(h));
    } else if u + 1 < Hi(h) {
      es', next := ZeroCheckRuns(c, s, es', next, t, h, u + 1);
    }
  }

  /** From a block of the right order to the end of the allocation. */
  lemma GrantRuns(c: Config, s: State, es: seq<Event>, cur: State, t: nat, h: Block)
    returns (es': seq<Event>, next: State)
    requires c.Valid() && cur == Run(c, s, es) && cur.At(t) == AfterSplit(c, h.order, h)
    ensures Extends(es, es', t) && Gains(c, s, es') == Gains(c, s, es)
    ensures next == Run(c, s, es') && next.At(t) == Idle && (forall u: nat :: u != t ==> next.At(u) == cur.At(u))
    ensures next.free == cur.free && next.summary == cur.summary && next.cursors == cur.cursors
    ensures next.live == cur.live[cur.nextHandle := h] && next.nextHandle == cur.nextHandle + 1
  {
    hide Gains, Run, Hi, Lo, NextOrder, WordBits, Least, Pow2;
    es', next := es, cur;
    if c.zeroPolicy { es', next := ZeroCheckRuns(c, s, es, cur, t, h, Lo(h)); }
    es', next := SoloStep(c, s, es', next, t);
  }

  lemma {:induction false} ScrubbingRuns(c: Config, s: State, es: seq<Event>, cur: State, t: nat, h: Block, u: nat)
    returns (es': seq<Event>, next: State)
    requires c.Valid() && cur == Run(c, s, es) && cur.At(t) == Scrubbing(h, u)
    ensures Extends(es, es', t) && Gains(c, s, es') == Gains(c, s, es)
    ensures next == Run(c, s, es') && next.At(t) == MarkZeroed(h, Lo(h)) && Undisturbed(cur, next, t)
    decreases Hi(h) - u
  {
    hide Gains, Run, Hi, Lo, NextOrder, WordBits, Least;
    es', next := SoloStep(c, s, es, cur, t);
    if u + 1 < Hi(h) { es', next := ScrubbingRuns(c, s, es', next, t, h, u + 1); }
  }

  lemma {:induction false} MarkingRuns(c: Config, s: State, es: seq<Event>, cur: State, t: nat, h: Block, u: nat)
    returns (es': seq<Event>, next: State)
    requires c.Valid() && cur == Run(c, s, es) && cur.At(t) == MarkZeroed(h, u)
    ensures Extends(es, es', t) && Gains(c, s, es') == Gains(c, s, es)
    ensures next == Run(c, s, es') && next.At(t) == AfterScrub(c, h) && Undisturbed(cur, next, t)
    decreases Hi(h) - u
  {
    hide Gains, Run, Hi, Lo, NextOrder, WordBits, Least;
    es', next := SoloStep(c, s, es, cur, t);
    if u + 1 < Hi(h) { es', next := MarkingRuns(c, s, es', next, t, h, u + 1); }
  }

  /** From the start of a return up to the first look for the buddy, or to the publish. */
  lemma ScrubRuns(c: Config, s: State, es: seq<Event>, cur: State, t: nat, h: Block)
    returns (es': seq<Event>, next: State)
    requires c.Valid() && cur == Run(c, s, es) && cur.At(t) == RecordFree(h)
    ensures Extends(es, es', t) && Gains(c, s, es') == Gains(c, s, es)
    ensures next == Run(c, s, es') && next.At(t) == AfterScrub(c, h) && Undisturbed(cur, next, t)
  {
    hide Gains, Run, Hi, Lo, NextOrder, WordBits, Least, Pow2;
    es', next := SoloStep(c, s, es, cur, t);
    if c.zeroPolicy {
      es', next := ScrubbingRuns(c, s, es', next, t, h, Lo(h));
      es', next := MarkingRuns(c, s, es', next, t, h, Lo(h));
    }
  }

  /** A look for a buddy that is not free, up to the publish. */
  lemma LookRuns(c: Config, s: State, es: seq<Event>, cur: State, t: nat, h: Block)
    returns (es': seq<Event>, next: State)
    requires c.Valid() && cur == Run(c, s, es) && cur.At(t) == Climb(h) && Buddy(h) !in cur.free
    ensures Extends(es, es', t) && Gains(c, s, es') == Gains(c, s, es)
    ensures next == Run(c, s, es') && next.At(t) == Publish(h) && (forall u: nat :: u != t ==> next.At(u) == cur.At(u))
    ensures next.free == cur.free && next.live == cur.live
  {
    hide Gains, Run, Hi, Lo, NextOrder, WordBits, Least, Pow2;
    es', next := SoloStep(c, s, es, cur, t);
    es', next := SoloStep(c, s, es', next, t);
  }

  lemma RaiseRuns(c: Config, s: State, es: seq<Event>, cur: State, t: nat, h: Block)
    returns (es': seq<Event>, next: State)
    requires c.Valid() && cur == Run(c, s, es) && cur.At(t) == Raise(h)
    ensures Extends(es, es', t) && Gains(c, s, es') == Gains(c, s, es)
    ensures next == Run(c, s, es') && next.At(t) == Publish(h) && (forall u: nat :: u != t ==> next.At(u) == cur.At(u))
    ensures next.free == cur.free && next.live == cur.live && next.summary == cur.summary + {h.order}
  {
    hide Gains, Run, Hi, Lo, NextOrder, WordBits, Least, Pow2;
    es', next := SoloStep(c, s, es, cur, t);
  }

  lemma PublishRuns(c: Config, s: State, es: seq<Event>, cur: State, t: nat, h: Block)
    returns (es': seq<Event>, next: State)
    requires c.Valid() && cur == Run(c, s, es) && cur.At(t) == Publish(h)
    ensures Extends(es, es', t) && Gains(c, s, es') <= Gains(c, s, es) + 1
    ensures next == Run(c, s, es') && next.At(t) == Idle && (forall u: nat :: u != t ==> next.At(u) == cur.At(u))
    ensures next.free == cur.free + {h} && next.live == cur.live
    ensures next.summary == cur.summary && next.nextHandle == cur.nextHandle
  {
    hide Gains, Run, Hi, Lo, NextOrder, WordBits, Least, Pow2;
    es', next := Advance(c, s, es, cur, Step(t));
    GainsSnoc(c, s, es, Step(t));
    OneGain(cur.free, h);
  }

  lemma OneGain(free: set<Block>, h: Block)
    ensures |free + {h} - free| <= 1
  {
    if h in free { assert free + {h} - free == {}; } else { assert free + {h} - free == {h}; }
  }

  /** A bitmap with one or two slots is one word. */
  lemma SmallBitmap(c: Config, order: nat)
    requires c.bits > 0 && order <= c.maxOrder <= order + 1 && c.maxOrder - order < c.bits
    ensures c.Valid() && c.ActualWords(order) == 1 && c.ScanWords(order) == 1
  {
    var n := Pow2(c.maxOrder - order);
    assert n == 1 || n == 2;
    DivModUnique(1, n - 1, c.bits, n + c.bits - 1);
  }

  lemma OnlyBit(free: set<Block>, h: Block, bits: nat)
    requires bits > 0 && free == {h} && h.idx / bits == 0
    ensures WordBits(free, h.order, bits, 0) == {h.idx}
  {
  }

  /** The scan of a one-word bitmap finds its only free block. */
  lemma FindRuns(c: Config, s: State, es: seq<Event>, cur: State, t: nat, target: nat, summary: set<nat>, h: Block)
    returns (es': seq<Event>, next: State)
    requires c.Valid() && cur == Run(c, s, es) && c.ScanWords(h.order) == 1 && h.idx < c.bits
    requires cur.At(t) == LoadWord(target, Some(summary), h.order, 0, 0) && cur.free == {h}
    ensures Extends(es, es', t) && Gains(c, s, es') == Gains(c, s, es)
    ensures next == Run(c, s, es') && next.At(t) == ClaimBit(target, Some(summary), h.order, 0, 0, h.idx)
    ensures Undisturbed(cur, next, t)
  {
    hide Gains, Run, Pow2, NextOrder, Lo, Hi, AfterSplit;
    DivModUnique(0, h.idx, c.bits, h.idx);
    OnlyBit(cur.free, h, c.bits);
    es', next := SoloStep(c, s, es, cur, t);
  }

  /** From the start of the scan to the claimed block, the summary bit cleared. */
  lemma ClaimRuns(c: Config, s: State, es: seq<Event>, cur: State, t: nat, target: nat, summary: set<nat>, h: Block)
    returns (es': seq<Event>, next: State)
    requires c.Valid() && cur == Run(c, s, es) && c.ActualWords(h.order) == 1
    requires c.ScanWords(h.order) == 1 && h.idx < c.bits
    requires cur.At(t) == Bump(target, Some(summary), h.order) && cur.free == {h}
    ensures Extends(es, es', t) && Gains(c, s, es') == Gains(c, s, es)
    ensures next == Run(c, s, es') && next.At(t) == AfterSplit(c, target, h)
    ensures forall u: nat :: u != t ==> next.At(u) == cur.At(u)
    ensures next.free == {} && next.summary == cur.summary - {h.order}
    ensures next.live == cur.live && next.nextHandle == cur.nextHandle
  {
    hide Gains, Run, Pow2, NextOrder, Lo, Hi, AfterSplit;
    es', next := SoloStep(c, s, es, cur, t);
    assert next.At(t) == LoadWord(target, Some(summary), h.order, 0, 0);
    es', next := FindRuns(c, s, es', next, t, target, summary, h);
    es', next := SoloStep(c, s, es', next, t);
    assert next.At(t) == AllocCheck(target, h, 0) && next.free == {};
    assert WordBits(next.free, h.order, c.bits, 0) == {};
    es', next := SoloStep(c, s, es', next, t);
    assert next.At(t) == AllocClear(target, h);
    es', next := SoloStep(c, s, es', next, t);
  }

  /** The summary shows one order, at or just above the target. */
  lemma LoadRuns(c: Config, s: State, es: seq<Event>, cur: State, t: nat, target: nat, order: nat)
    returns (es': seq<Event>, next: State)
    requires c.Valid() && cur == Run(c, s, es) && cur.At(t) == LoadSummary(target) && cur.summary == {order}
    requires target <= order <= target + 1 && order <= c.maxOrder
    ensures Extends(es, es', t) && Gains(c, s, es') == Gains(c, s, es)
    ensures next == Run(c, s, es') && next.At(t) == Bump(target, Some({order}), order) && Undisturbed(cur, next, t)
  {
    hide Gains, Run;
    es', next := SoloStep(c, s, es, cur, t);
    if target < order {
      assert NextOrder(c, target, Some({order}), target) == NextOrder(c, target, Some({order}), target + 1);
    }
  }

  /** From the first event of an allocation to the claimed block. */
  lemma SearchRuns(c: Config, s: State, es: seq<Event>, cur: State, t: nat, target: nat, h: Block)
    returns (es': seq<Event>, next: State)
    requires c.bits > 0 && cur == Run(c, s, es) && h.order <= c.maxOrder <= h.order + 1
    requires c.maxOrder - h.order < c.bits && h.idx < c.bits
    requires cur.At(t) == Idle && cur.free == {h} && cur.summary == {h.order} && target <= h.order <= target + 1
    ensures c.Valid() && Extends(es, es', t) && Gains(c, s, es') == Gains(c, s, es)
    ensures next == Run(c, s, es') && next.At(t) == AfterSplit(c, target, h)
    ensures forall u: nat :: u != t ==> next.At(u) == cur.At(u)
    ensures next.free == {} && next.summary == {} && next.live == cur.live && next.nextHandle == cur.nextHandle
  {
    hide Gains, Run, Pow2, StepOf, WordBits, Least, NextOrder, AfterSplit;
    SmallBitmap(c, h.order);
    var begun;
    es', begun := Advance(c, s, es, cur, StartAlloc(t, target));
    GainsSnoc(c, s, es, StartAlloc(t, target));
    NoGain(cur.free, begun.free);
    forall u: nat | u != t ensures begun.At(u) == cur.At(u) {}
    es', next := LoadRuns(c, s, es', begun, t, target, h.order);
    es', next := ClaimRuns(c, s, es', next, t, target, {h.order}, h);
  }
}
