/** When interleaved returns leave the free blocks fully merged (src/buddy.rs:718-731).

    A thread looks for the buddy of its block before it publishes the block. Between the two
    another thread may publish that buddy. This module shows that nothing else ever leaves
    two buddies free, that returns which do not overlap in time never do it, whatever is
    allocated meanwhile, and that without it the arena settles in the state that whole
    operations would have reached.
 */
module BuddyMerging {
  import opened Words
  import opened Bitmaps
  import opened Blocks
  import opened BuddyInterleaving

  ghost predicate Merged(s: State)
  {
    forall x :: x in s.free ==> Buddy(x) !in s.free
  }

  /** A thread publishes a block whose buddy is free. */
  predicate Collides(s: State, e: Event)
  {
    e.Step? && s.At(e.t).Publish? && Buddy(s.At(e.t).h) in s.free
  }

  /** No free block overlaps what a thread holds. */
  lemma HeldNotFree(c: Config, s: State, t: nat, h: Block, x: Block)
    requires Inv(c, s) && Holding(s.At(t)) == Some(h) && Inside(x, h)
    ensures x !in s.free
  {
    hide BytesExact, ZeroPolicy, Shaped;
    assert HeldPiece(t, h) in Pieces(s);
    assert FreePiece(x) in Pieces(s) <==> x in s.free;
  }

  /** No two threads hold overlapping blocks. */
  lemma HeldApart(c: Config, s: State, t: nat, h: Block, u: nat, g: Block)
    requires Inv(c, s) && Holding(s.At(t)) == Some(h) && Holding(s.At(u)) == Some(g) && t != u
    ensures !Overlap(h, g)
  {
    hide BytesExact, ZeroPolicy, Shaped, Overlap;
    assert HeldPiece(t, h) in Pieces(s) && HeldPiece(u, g) in Pieces(s);
  }

  /** A step keeps every two buddies from both being free exactly when it is no collision. */
  lemma MergedStep(c: Config, s: State, e: Event)
    requires c.Valid() && Inv(c, s) && Merged(s)
    ensures Merged(Apply(c, s, e)) <==> !Collides(s, e)
  {
    hide Inv, Inside, Lo, Hi, Pow2, WordBits, Least, NextOrder;
    var s' := Apply(c, s, e);
    if e.Step? && s.At(e.t).Publish? {
      var h := s.At(e.t).h;
      assert s'.free == s.free + {h};
      assert Collides(s, e) ==> h in s'.free && Buddy(h) in s'.free;
    } else if e.Step? && s.At(e.t).SplitPublish? {
      SplitMerges(c, s, e.t);
    } else {
      FreeShrinks(c, s, e);
    }
  }

  lemma SplitMerges(c: Config, s: State, t: nat)
    requires c.Valid() && Inv(c, s) && Merged(s) && s.At(t).SplitPublish?
    ensures Merged(Apply(c, s, Step(t)))
  {
    hide Inv, Lo, Hi, Pow2, WordBits, Least, NextOrder, Tiling;
    var h := s.At(t).h;
    if h.order > 0 {
      HeldNotFree(c, s, t, h, Left(h));
      assert Buddy(Right(h)) == Left(h) && Buddy(Left(h)) == Right(h);
      assert Apply(c, s, Step(t)).free == s.free + {Right(h)};
    }
  }

  lemma FreeShrinks(c: Config, s: State, e: Event)
    requires c.Valid() && !(e.Step? && (s.At(e.t).Publish? || s.At(e.t).SplitPublish?))
    ensures Apply(c, s, e).free <= s.free
  {
    hide Lo, Hi, Pow2, WordBits, Least, NextOrder;
  }

  // ----- where a collision comes from

  /** Thread `t` has looked for the buddy of `h` in vain and is about to publish `h`. */
  predicate PastLook(s: State, t: nat, h: Block)
  {
    s.At(t) == Raise(h) || s.At(t) == Publish(h)
  }

  /** Another thread publishes the buddy of a block that `t` is about to publish. */
  predicate Crosses(s: State, e: Event, t: nat, h: Block)
  {
    e.Step? && e.t != t && PastLook(s, t, h) && s.At(e.t) == Publish(Buddy(h))
  }

  /** An allocation claims the free block `x`. */
  predicate Takes(s: State, e: Event, x: Block)
  {
    e.Step? && s.At(e.t).ClaimBit? && Block(s.At(e.t).order, s.At(e.t).bit) == x
  }

  /** The buddy is not free when a thread comes to be past its look. */
  lemma LookFails(c: Config, s: State, e: Event, t: nat, h: Block)
    requires c.Valid() && Inv(c, s) && !PastLook(s, t, h) && PastLook(Apply(c, s, e), t, h)
    ensures Buddy(h) !in Apply(c, s, e).free
  {
    hide Inv, Lo, Hi, Pow2, WordBits, Least, NextOrder, Inside;
    assert e.Step? && e.t == t;
    var pc := s.At(t);
    if pc.LoadSummary? { NextOrderHoldsNothing(c, pc.target, Some(s.summary), pc.target); }
    if pc.LoadWord? { NextOrderHoldsNothing(c, pc.target, pc.summary, pc.order + 1); }
    if h.order >= c.maxOrder { BeyondTop(c, s, t, h); }
  }

  /** A thread that is past its look or on the way there at the top order holds the top block. */
  lemma BeyondTop(c: Config, s: State, t: nat, h: Block)
    requires c.Valid() && Inv(c, s) && Holding(s.At(t)) == Some(h) && h.order >= c.maxOrder
    ensures Buddy(h) !in s.free
  {
    hide BytesExact, ZeroPolicy, Shaped;
    assert HeldPiece(t, h) in Pieces(s);
    InsideOrder(h, Top(c.maxOrder));
    TopHasNoBuddy(c, s);
  }

  /** While `t` is past its look, only a crossing publish makes the buddy free. */
  lemma FreedByCrossing(c: Config, s: State, e: Event, t: nat, h: Block)
    requires c.Valid() && Inv(c, s) && PastLook(s, t, h) && PastLook(Apply(c, s, e), t, h)
    ensures Buddy(h) !in s.free && Buddy(h) in Apply(c, s, e).free <==> Crosses(s, e, t, h) && Buddy(h) !in s.free
  {
    hide Inv, Lo, Hi, Pow2, WordBits, Least, NextOrder, Inside;
    if e.Step? && s.At(e.t).SplitPublish? {
      SplitApart(c, s, e.t, t, h);
    } else if !(e.Step? && s.At(e.t).Publish?) {
      FreeShrinks(c, s, e);
    }
  }

  lemma SplitApart(c: Config, s: State, u: nat, t: nat, h: Block)
    requires c.Valid() && Inv(c, s) && PastLook(s, t, h) && s.At(u).SplitPublish?
    ensures s.At(u).h.order > 0 ==> Right(s.At(u).h) != Buddy(h)
  {
    hide Inv;
    var g := s.At(u).h;
    HeldApart(c, s, t, h, u, g);
    if g.order > 0 { assert Parent(h) == g ==> Inside(Parent(h), g); }
  }

  /** While `t` is past its look, only an allocation takes the free buddy away. */
  lemma KeptUnlessTaken(c: Config, s: State, e: Event, t: nat, h: Block)
    requires c.Valid() && Inv(c, s) && PastLook(s, t, h) && PastLook(Apply(c, s, e), t, h) && Buddy(h) in s.free
    ensures Buddy(h) in Apply(c, s, e).free <==> !Takes(s, e, Buddy(h))
  {
    hide Inv, Lo, Hi, Pow2, WordBits, Least, NextOrder, Inside;
    if e.Step? && s.At(e.t).Climb? {
      if e.t != t { ClimberApart(c, s, e.t, t, h); }
    }
  }

  lemma ClimberApart(c: Config, s: State, u: nat, t: nat, h: Block)
    requires Inv(c, s) && PastLook(s, t, h) && s.At(u).Climb? && u != t
    ensures Buddy(s.At(u).h) != Buddy(h)
  {
    hide Inv;
    HeldApart(c, s, t, h, u, s.At(u).h);
    assert Buddy(Buddy(h)) == h && Buddy(Buddy(s.At(u).h)) == s.At(u).h;
  }

  /** The state before event `i` of a run. */
  ghost function Before(c: Config, dirty: set<nat>, es: seq<Event>, i: nat): State
    requires c.Valid() && i <= |es|
  {
    Run(c, Init(c, dirty), es[..i])
  }

  /** At event `j`, while `t` was past its look, another thread published the buddy, and up to
      the end of the run `t` is still there and no allocation has taken the buddy. */
  ghost predicate CrossedAt(c: Config, dirty: set<nat>, es: seq<Event>, t: nat, h: Block, j: nat)
    requires c.Valid()
  {
    && j < |es| && Crosses(Before(c, dirty, es, j), es[j], t, h)
    && forall i :: j < i <= |es| ==> StillCrossed(c, dirty, es, t, h, i)
  }

  ghost predicate StillCrossed(c: Config, dirty: set<nat>, es: seq<Event>, t: nat, h: Block, i: nat)
    requires c.Valid() && i <= |es|
  {
    PastLook(Before(c, dirty, es, i), t, h) && (i < |es| ==> !Takes(Before(c, dirty, es, i), es[i], Buddy(h)))
  }

  lemma BeforeStep(c: Config, dirty: set<nat>, es: seq<Event>, i: nat)
    requires c.Valid() && i < |es|
    ensures Inv(c, Before(c, dirty, es, i))
    ensures Before(c, dirty, es, i + 1) == Apply(c, Before(c, dirty, es, i), es[i])
  {
    hide Inv, Apply;
    InvRun(c, dirty, es[..i]);
    assert es[..i + 1][..i] == es[..i];
  }

  /** After any interleaving, a thread about to publish `h` finds the buddy free exactly when
      another thread has published that buddy since the failed look, and no allocation has
      taken it since. */
  lemma BuddyFreeIffCrossed(c: Config, dirty: set<nat>, es: seq<Event>, t: nat, h: Block)
    requires c.Valid() && PastLook(Run(c, Init(c, dirty), es), t, h)
    ensures Buddy(h) in Run(c, Init(c, dirty), es).free <==> exists j: nat :: CrossedAt(c, dirty, es, t, h, j)
  {
    hide Crosses, Takes, Inv;
    assert es[..|es|] == es;
    if Buddy(h) in Run(c, Init(c, dirty), es).free {
      var j := FindCrossing(c, dirty, es, t, h, |es|);
    }
    if exists j: nat :: CrossedAt(c, dirty, es, t, h, j) {
      var j: nat :| CrossedAt(c, dirty, es, t, h, j);
      CrossingLasts(c, dirty, es, t, h, j, |es|);
    }
  }

  /** Walking back to the event that made the buddy free. */
  lemma {:induction false} FindCrossing(c: Config, dirty: set<nat>, es: seq<Event>, t: nat, h: Block, n: nat)
    returns (j: nat)
    requires c.Valid() && n <= |es|
    requires PastLook(Before(c, dirty, es, n), t, h) && Buddy(h) in Before(c, dirty, es, n).free
    requires forall i :: n <= i <= |es| ==> StillCrossed(c, dirty, es, t, h, i)
    ensures CrossedAt(c, dirty, es, t, h, j)
    decreases n
  {
    hide Inv, Apply, Crosses, Takes, PastLook;
    if n == 0 {
      InitIdle(c, dirty, es, t, h);
      assert false;
    }
    var s, e := Before(c, dirty, es, n - 1), es[n - 1];
    BeforeStep(c, dirty, es, n - 1);
    if !PastLook(s, t, h) {
      LookFails(c, s, e, t, h);
      assert false;
    } else if Buddy(h) in s.free {
      KeptUnlessTaken(c, s, e, t, h);
      j := FindCrossing(c, dirty, es, t, h, n - 1);
    } else {
      FreedByCrossing(c, s, e, t, h);
      j := n - 1;
    }
  }

  lemma InitIdle(c: Config, dirty: set<nat>, es: seq<Event>, t: nat, h: Block)
    requires c.Valid()
    ensures !PastLook(Before(c, dirty, es, 0), t, h)
  {
  }

  lemma {:induction false} CrossingLasts(c: Config, dirty: set<nat>, es: seq<Event>, t: nat, h: Block, j: nat, n: nat)
    requires c.Valid() && CrossedAt(c, dirty, es, t, h, j) && j < n <= |es|
    ensures Buddy(h) in Before(c, dirty, es, n).free
    decreases n
  {
    hide Inv, Apply, Takes, PastLook;
    var s, e := Before(c, dirty, es, n - 1), es[n - 1];
    BeforeStep(c, dirty, es, n - 1);
    assert StillCrossed(c, dirty, es, t, h, n);
    if n == j + 1 {
      CrossingFrees(c, s, e, t, h);
    } else {
      assert StillCrossed(c, dirty, es, t, h, n - 1);
      CrossingLasts(c, dirty, es, t, h, j, n - 1);
      KeptUnlessTaken(c, s, e, t, h);
    }
  }

  lemma CrossingFrees(c: Config, s: State, e: Event, t: nat, h: Block)
    requires c.Valid() && Crosses(s, e, t, h)
    ensures Buddy(h) in Apply(c, s, e).free
  {
  }

  // ----- settled states

  ghost predicate AllIdle(s: State)
  {
    forall t: nat :: Holding(s.At(t)).None?
  }

  ghost function LiveBlocks(s: State): set<Block>
  {
    set handle | handle in s.live :: s.live[handle]
  }

  /** With nothing in flight and no free buddies, what avoids the live blocks is part of one
      free block. */
  lemma {:induction false} FreeCovers(c: Config, s: State, b: Block) returns (f: Block)
    requires Inv(c, s) && Merged(s) && AllIdle(s) && Inside(b, Top(c.maxOrder)) && Avoids(LiveBlocks(s), b)
    ensures f in s.free && Inside(b, f)
    decreases b.order
  {
    hide Inv, Merged, Avoids, AllIdle;
    if b.order == 0 {
      f := UnitFree(c, s, b);
    } else {
      InsideTrans(Left(b), b, Top(c.maxOrder));
      InsideTrans(Right(b), b, Top(c.maxOrder));
      AvoidsParts(LiveBlocks(s), Left(b), b);
      AvoidsParts(LiveBlocks(s), Right(b), b);
      var l := FreeCovers(c, s, Left(b));
      var r := FreeCovers(c, s, Right(b));
      f := if l != Left(b) then l else r;
      if l == Left(b) && r == Right(b) {
        NotBoth(s, l);
        assert false;
      }
    }
  }

  lemma NotBoth(s: State, x: Block)
    requires Merged(s) && x in s.free
    ensures Buddy(x) !in s.free
  {
  }

  lemma UnitFree(c: Config, s: State, b: Block) returns (f: Block)
    requires Inv(c, s) && AllIdle(s) && Inside(b, Top(c.maxOrder)) && Avoids(LiveBlocks(s), b) && b.order == 0
    ensures f in s.free && Inside(b, f)
  {
    hide BytesExact, ZeroPolicy, Shaped;
    UnitInside(b.idx, Top(c.maxOrder));
    var ps := Pieces(s);
    assert Covered(ps, b.idx);
    var p :| p in ps && Inside(Block(0, b.idx), p.x);
    assert IsPiece(s, p);
    assert forall handle :: handle in s.live ==> s.live[handle] in LiveBlocks(s);
    f := p.x;
  }

  /** A free block avoids the live ones and lies in the arena. */
  lemma FreeAvoids(c: Config, s: State, x: Block)
    requires Inv(c, s) && x in s.free
    ensures Inside(x, Top(c.maxOrder)) && Avoids(LiveBlocks(s), x)
  {
    var ps := Pieces(s);
    assert FreePiece(x) in ps;
    forall l | l in LiveBlocks(s) ensures !Overlap(l, x) {
      var handle :| handle in s.live && s.live[handle] == l;
      assert LivePiece(handle, l) in ps;
    }
  }

  lemma FreeApart(c: Config, s: State, x: Block, y: Block)
    requires Inv(c, s) && x in s.free && y in s.free && Inside(x, y)
    ensures x == y
  {
    assert FreePiece(x) in Pieces(s) && FreePiece(y) in Pieces(s);
  }

  lemma FreeIsMaximal(c: Config, s: State, x: Block)
    requires Inv(c, s) && Merged(s) && AllIdle(s) && x in s.free
    ensures Maximal(Top(c.maxOrder), LiveBlocks(s), x)
  {
    hide Inv, Merged, Avoids, AllIdle;
    var top, live := Top(c.maxOrder), LiveBlocks(s);
    FreeAvoids(c, s, x);
    if x != top && Avoids(live, Parent(x)) {
      InsideOrder(x, top);
      AvoidsParts(live, Buddy(x), Parent(x));
      InsideTrans(Buddy(x), Parent(x), top);
      var f := FreeCovers(c, s, Buddy(x));
      NotBoth(s, x);
      InsideTrans(x, Parent(x), f);
      FreeApart(c, s, x, f);
      InsideOrder(Parent(x), x);
      assert false;
    }
  }

  lemma MaximalIsFree(c: Config, s: State, x: Block)
    requires Inv(c, s) && Merged(s) && AllIdle(s) && Maximal(Top(c.maxOrder), LiveBlocks(s), x)
    ensures x in s.free
  {
    hide Inv, Merged, Avoids, AllIdle;
    var top, live := Top(c.maxOrder), LiveBlocks(s);
    var f := FreeCovers(c, s, x);
    FreeAvoids(c, s, f);
    if f != x {
      StrictInside(top, x, f);
      AvoidsParts(live, Parent(x), f);
      assert false;
    }
  }

  /** Once nothing is in flight, the free blocks are those the live blocks determine exactly
      when no two buddies are both free. */
  lemma SettledIff(c: Config, s: State)
    requires c.Valid() && Inv(c, s) && AllIdle(s)
    ensures Canonical(Top(c.maxOrder), LiveBlocks(s), s.free) <==> Merged(s)
  {
    hide Inv, Maximal, AllIdle, Inside;
    var top, live := Top(c.maxOrder), LiveBlocks(s);
    if Merged(s) {
      forall x ensures x in s.free <==> Maximal(top, live, x) {
        if x in s.free { FreeIsMaximal(c, s, x); }
        if Maximal(top, live, x) { MaximalIsFree(c, s, x); }
      }
    }
    if Canonical(top, live, s.free) {
      forall x | x in s.free ensures Buddy(x) !in s.free {
        if x == top { TopHasNoBuddy(c, s); } else { NoFreeBuddies(top, live, s.free, x); }
      }
    }
  }

  lemma TopHasNoBuddy(c: Config, s: State)
    requires Inv(c, s)
    ensures Buddy(Top(c.maxOrder)) !in s.free
  {
    var b := Buddy(Top(c.maxOrder));
    if b in s.free {
      FreeAvoids(c, s, b);
      InsideOrder(b, Top(c.maxOrder));
      assert false;
    }
  }

  // ----- whole runs

  /** Event `k` publishes a block whose buddy another thread published since the look, and
      which no allocation has taken since. */
  ghost predicate Late(c: Config, dirty: set<nat>, es: seq<Event>, k: nat)
    requires c.Valid() && k < |es|
  {
    && es[k].Step? && Before(c, dirty, es, k).At(es[k].t).Publish?
    && exists j: nat :: CrossedAt(c, dirty, es[..k], es[k].t, Before(c, dirty, es, k).At(es[k].t).h, j)
  }

  ghost predicate NeverLate(c: Config, dirty: set<nat>, es: seq<Event>)
    requires c.Valid()
  {
    forall k :: 0 <= k < |es| ==> !Late(c, dirty, es, k)
  }

  lemma CollidesIffLate(c: Config, dirty: set<nat>, es: seq<Event>, k: nat)
    requires c.Valid() && k < |es|
    ensures Collides(Before(c, dirty, es, k), es[k]) <==> Late(c, dirty, es, k)
  {
    hide CrossedAt, Inv;
    var s := Before(c, dirty, es, k);
    if es[k].Step? && s.At(es[k].t).Publish? { BuddyFreeIffCrossed(c, dirty, es[..k], es[k].t, s.At(es[k].t).h); }
  }

  /** Over any interleaving, two buddies are never both free if and only if no thread publishes
      a block whose buddy another thread published between this thread's look and its publish,
      and which no allocation took back. */
  lemma {:induction false} AlwaysMergedIff(c: Config, dirty: set<nat>, es: seq<Event>)
    requires c.Valid()
    ensures (forall n :: 0 <= n <= |es| ==> Merged(Before(c, dirty, es, n))) <==> NeverLate(c, dirty, es)
  {
    hide Inv, Merged, Apply, Collides, Late;
    if NeverLate(c, dirty, es) {
      forall n | 0 <= n <= |es| ensures Merged(Before(c, dirty, es, n)) { MergedBefore(c, dirty, es, n); }
    }
    if forall n :: 0 <= n <= |es| ==> Merged(Before(c, dirty, es, n)) {
      forall k | 0 <= k < |es| ensures !Late(c, dirty, es, k) {
        BeforeStep(c, dirty, es, k);
        assert Merged(Before(c, dirty, es, k)) && Merged(Before(c, dirty, es, k + 1));
        MergedStep(c, Before(c, dirty, es, k), es[k]);
        CollidesIffLate(c, dirty, es, k);
      }
    }
  }

  lemma {:induction false} MergedBefore(c: Config, dirty: set<nat>, es: seq<Event>, n: nat)
    requires c.Valid() && NeverLate(c, dirty, es) && n <= |es|
    ensures Merged(Before(c, dirty, es, n))
    decreases n
  {
    hide Inv, Merged, Apply, Collides, Late;
    if n == 0 {
      InitMerged(c, dirty, es);
    } else {
      MergedBefore(c, dirty, es, n - 1);
      BeforeStep(c, dirty, es, n - 1);
      CollidesIffLate(c, dirty, es, n - 1);
      MergedStep(c, Before(c, dirty, es, n - 1), es[n - 1]);
    }
  }

  lemma InitMerged(c: Config, dirty: set<nat>, es: seq<Event>)
    requires c.Valid()
    ensures Merged(Before(c, dirty, es, 0))
  {
  }

  /** After any interleaving without a late publish, once nothing is in flight, the free blocks
      are the maximal aligned blocks that avoid the live ones, as if each operation had run
      alone; so a request can be served exactly when some aligned block is unused. */
  lemma RunSettles(c: Config, dirty: set<nat>, es: seq<Event>, k: nat)
    requires c.Valid() && NeverLate(c, dirty, es) && AllIdle(Run(c, Init(c, dirty), es))
    ensures var s := Run(c, Init(c, dirty), es);
            && Canonical(Top(c.maxOrder), LiveBlocks(s), s.free)
            && (Available(s.free, k) <==> Fits(Top(c.maxOrder), LiveBlocks(s), k))
  {
    hide Inv, Merged, Canonical, AllIdle, Late;
    var s := Run(c, Init(c, dirty), es);
    InvRun(c, dirty, es);
    assert es[..|es|] == es;
    MergedBefore(c, dirty, es, |es|);
    SettledIff(c, s);
    AvailableIffFits(Top(c.maxOrder), LiveBlocks(s), s.free, k);
  }

  // ----- returns that do not overlap in time

  /** A thread is inside a return. */
  predicate Returning(pc: Pc)
  {
    || pc.RecordFree? || pc.Scrubbing? || pc.MarkZeroed? || pc.Climb? || pc.ClimbCheck? || pc.ClimbClear?
    || pc.Raise? || pc.Publish?
  }

  /** No return begins while another thread is inside one; allocations run as they like. */
  ghost predicate OneReturnAtATime(c: Config, dirty: set<nat>, es: seq<Event>)
    requires c.Valid()
  {
    forall k, t: nat :: 0 <= k < |es| && es[k].StartRelease? && t != es[k].t ==>
      !Returning(Before(c, dirty, es, k).At(t))
  }

  ghost predicate OneReturns(s: State)
  {
    forall t: nat, u: nat :: Returning(s.At(t)) && Returning(s.At(u)) ==> t == u
  }

  lemma OneReturnsStep(c: Config, s: State, e: Event)
    requires c.Valid() && OneReturns(s) && (e.StartRelease? ==> forall t: nat :: t != e.t ==> !Returning(s.At(t)))
    ensures OneReturns(Apply(c, s, e))
  {
    hide Returning, Lo, Hi, Pow2, WordBits, Least, NextOrder;
    var s' := Apply(c, s, e);
    forall t: nat | Returning(s'.At(t)) ensures Returning(s.At(t)) || (e.StartRelease? && e.t == t) {
      ReturnBegins(c, s, e, t);
    }
  }

  /** A return begins only with its first event. */
  lemma ReturnBegins(c: Config, s: State, e: Event, t: nat)
    requires c.Valid() && Returning(Apply(c, s, e).At(t))
    ensures Returning(s.At(t)) || (e.StartRelease? && e.t == t)
  {
    hide Lo, Hi, Pow2, WordBits, Least, NextOrder;
    if e.Step? && e.t == t {
      var pc := s.At(t);
      if pc.LoadSummary? { NextOrderHoldsNothing(c, pc.target, Some(s.summary), pc.target); }
      if pc.LoadWord? { NextOrderHoldsNothing(c, pc.target, pc.summary, pc.order + 1); }
    }
  }

  lemma {:induction false} OneReturnsBefore(c: Config, dirty: set<nat>, es: seq<Event>, n: nat)
    requires c.Valid() && OneReturnAtATime(c, dirty, es) && n <= |es|
    ensures OneReturns(Before(c, dirty, es, n))
    decreases n
  {
    hide Inv, Apply, Returning;
    if n == 0 {
      InitReturnsNothing(c, dirty, es);
    } else {
      OneReturnsBefore(c, dirty, es, n - 1);
      BeforeStep(c, dirty, es, n - 1);
      OneReturnsStep(c, Before(c, dirty, es, n - 1), es[n - 1]);
    }
  }

  lemma InitReturnsNothing(c: Config, dirty: set<nat>, es: seq<Event>)
    requires c.Valid()
    ensures OneReturns(Before(c, dirty, es, 0))
  {
  }

  /** Returns that do not overlap in time never leave two buddies free, whatever allocations
      run at the same time. */
  lemma SeparateReturnsMerge(c: Config, dirty: set<nat>, es: seq<Event>)
    requires c.Valid() && OneReturnAtATime(c, dirty, es)
    ensures NeverLate(c, dirty, es) && Merged(Run(c, Init(c, dirty), es))
  {
    hide Inv, Merged, Apply, OneReturns;
    forall k | 0 <= k < |es| ensures !Late(c, dirty, es, k) {
      if Late(c, dirty, es, k) {
        var t, h := es[k].t, Before(c, dirty, es, k).At(es[k].t).h;
        var j: nat :| CrossedAt(c, dirty, es[..k], t, h, j);
        NotCrossed(c, dirty, es, k, t, h, j);
        assert false;
      }
    }
    assert es[..|es|] == es;
    MergedBefore(c, dirty, es, |es|);
  }

  lemma NotCrossed(c: Config, dirty: set<nat>, es: seq<Event>, k: nat, t: nat, h: Block, j: nat)
    requires c.Valid() && OneReturnAtATime(c, dirty, es) && k < |es|
    ensures !CrossedAt(c, dirty, es[..k], t, h, j)
  {
    hide Inv, Apply, StillCrossed;
    if j < k {
      assert es[..k][..j] == es[..j];
      OneReturnsBefore(c, dirty, es, j);
    }
  }
}
