/** A run of the interleaved buddy allocator (src/buddy.rs:718-731) that starts in a new arena
    and ends idle with two buddies free and unmerged.
 */
module UnmergedBuddies {
  import opened Words
  import opened Bitmaps
  import opened Blocks
  import opened BuddyInterleaving
  import opened SoloRuns

  /** Whenever two buddies are live and two threads idle, returning both can leave both free:
      each thread looks for its buddy before the other has published. */
  lemma BuddiesCanStayUnmerged(c: Config, s: State, t1: nat, t2: nat, a: nat, b: nat) returns (es: seq<Event>)
    requires c.Valid() && Inv(c, s)
    requires t1 != t2 && s.At(t1).Idle? && s.At(t2).Idle?
    requires a in s.live && b in s.live && s.live[b] == Buddy(s.live[a]) && s.live[a].order < c.maxOrder
    ensures var s' := Run(c, s, es);
            && s.live[a] in s'.free && Buddy(s.live[a]) in s'.free
            && s'.live == s.live - {a} - {b}
            && s'.At(t1).Idle? && s'.At(t2).Idle?
            && forall t: nat :: t != t1 && t != t2 ==> s'.At(t) == s.At(t)
  {
    hide Gains, Inv, Run, Pow2, WordBits, Least, NextOrder, Lo, Hi, StepOf;
    var x, y := s.live[a], s.live[b];
    NotFree(c, s, a);
    NotFree(c, s, b);
    assert Buddy(y) == x;
    RunEmpty(c, s);
    var cur := s;
    es, cur := Advance(c, s, [], cur, StartRelease(t1, a));
    es, cur := Advance(c, s, es, cur, StartRelease(t2, b));
    es, cur := ScrubRuns(c, s, es, cur, t1, x);
    es, cur := ScrubRuns(c, s, es, cur, t2, y);
    es := UnmergedFrom(c, s, es, cur, t1, t2, x);
  }

  /** Both threads are about to look for their buddy. */
  lemma UnmergedFrom(c: Config, s: State, es: seq<Event>, cur: State, t1: nat, t2: nat, x: Block)
    returns (es': seq<Event>)
    requires c.Valid() && cur == Run(c, s, es) && t1 != t2
    requires cur.At(t1) == Climb(x) && cur.At(t2) == Climb(Buddy(x)) && x !in cur.free && Buddy(x) !in cur.free
    ensures var s' := Run(c, s, es');
            && x in s'.free && Buddy(x) in s'.free && s'.live == cur.live && s'.At(t1).Idle? && s'.At(t2).Idle?
            && forall t: nat :: t != t1 && t != t2 ==> s'.At(t) == cur.At(t)
  {
    hide Gains, Run, Apply;
    var next;
    es', next := LookRuns(c, s, es, cur, t1, x);
    es', next := LookRuns(c, s, es', next, t2, Buddy(x));
    es', next := PublishRuns(c, s, es', next, t1, x);
    es', next := PublishRuns(c, s, es', next, t2, Buddy(x));
  }

  lemma NotFree(c: Config, s: State, handle: nat)
    requires Inv(c, s) && handle in s.live
    ensures s.live[handle] !in s.free
  {
    var x := s.live[handle];
    assert LivePiece(handle, x) in Pieces(s) && Overlap(x, x);
    assert x in s.free <==> FreePiece(x) in Pieces(s);
  }

  // ----- from a new arena to two live buddies

  /** What a run by thread 0 alone has reached. */
  ghost predicate Reached(s: State, free: set<Block>, summary: set<nat>, live: map<nat, Block>, pc: Pc)
  {
    && s.free == free && s.summary == summary && s.live == live && s.At(0) == pc
    && forall t: nat :: t != 0 ==> s.At(t) == Idle
  }

  /** The first allocation splits the whole arena and keeps its left half. */
  lemma FirstHalf(c: Config, dirty: set<nat>) returns (es: seq<Event>, cur: State)
    requires c.bits > 1 && c.maxOrder > 0
    ensures var top := Top(c.maxOrder);
            && c.Valid() && cur == Run(c, Init(c, dirty), es)
            && Reached(cur, {Right(top)}, {c.maxOrder - 1}, map[0 := Left(top)], Idle) && cur.nextHandle == 1
  {
    hide Gains, Run, Pow2, Lo, Hi, WordBits, Least, StepOf, AfterSplit;
    var init, k, top := Init(c, dirty), c.maxOrder - 1, Top(c.maxOrder);
    RunEmpty(c, init);
    es, cur := SearchRuns(c, init, [], init, 0, k, top);
    es, cur := SplitRuns(c, init, es, cur, k, top);
    es, cur := GrantRuns(c, init, es, cur, 0, Left(top));
  }

  lemma SplitRuns(c: Config, s: State, es: seq<Event>, cur: State, target: nat, h: Block)
    returns (es': seq<Event>, next: State)
    requires c.Valid() && cur == Run(c, s, es) && h.order == target + 1 && cur.At(0) == AfterSplit(c, target, h)
    requires cur.free == {} && cur.summary == {}
    ensures next == Run(c, s, es') && next.At(0) == AfterSplit(c, target, Left(h))
    ensures forall t: nat :: t != 0 ==> next.At(t) == cur.At(t)
    ensures next.free == {Right(h)} && next.summary == {target}
    ensures next.live == cur.live && next.nextHandle == cur.nextHandle && next.cursors == cur.cursors
  {
    hide Gains, Run, Pow2, Lo, Hi, WordBits, Least, NextOrder;
    es', next := SoloStep(c, s, es, cur, 0);
    es', next := SoloStep(c, s, es', next, 0);
  }

  /** The second allocation takes the right half whole. */
  lemma BothHalvesLive(c: Config, dirty: set<nat>) returns (es: seq<Event>, cur: State)
    requires c.bits > 1 && c.maxOrder > 0
    ensures var top := Top(c.maxOrder);
            && c.Valid() && cur == Run(c, Init(c, dirty), es)
            && Reached(cur, {}, {}, map[0 := Left(top), 1 := Right(top)], Idle)
  {
    hide Gains, Run, Pow2, Lo, Hi, WordBits, Least, StepOf, AfterSplit;
    var init, k, top := Init(c, dirty), c.maxOrder - 1, Top(c.maxOrder);
    es, cur := FirstHalf(c, dirty);
    es, cur := SearchRuns(c, init, es, cur, 0, k, Right(top));
    es, cur := GrantRuns(c, init, es, cur, 0, Right(top));
    assert cur.live == map[0 := Left(top), 1 := Right(top)];
  }

  /** From a new arena of any size above one block, under either policy, some run ends with no
      thread at work, nothing live, and the two halves of the arena free and unmerged, so
      that a request for the whole empty arena cannot be served. */
  lemma UnmergedReachable(c: Config, dirty: set<nat>) returns (es: seq<Event>)
    requires c.bits > 1 && c.maxOrder > 0
    ensures c.Valid()
    ensures var s := Run(c, Init(c, dirty), es);
            && Left(Top(c.maxOrder)) in s.free && Right(Top(c.maxOrder)) in s.free
            && !Available(s.free, c.maxOrder) && Fits(Top(c.maxOrder), {}, c.maxOrder)
            && s.live == map[] && forall t: nat :: s.At(t) == Idle
  {
    hide Gains, Inv, Run, Apply;
    var init, top := Init(c, dirty), Top(c.maxOrder);
    var es1, cur := BothHalvesLive(c, dirty);
    InvRun(c, dirty, es1);
    assert Buddy(Left(top)) == Right(top);
    var es2 := BuddiesCanStayUnmerged(c, cur, 1, 2, 0, 1);
    RunConcat(c, init, es1, es2);
    es := es1 + es2;
    InvRun(c, dirty, es);
    WholeNotFree(c, Run(c, init, es));
    assert Inside(top, top) && Avoids({}, top);
  }

  lemma {:induction false} RunConcat(c: Config, s: State, es: seq<Event>, fs: seq<Event>)
    requires c.Valid()
    ensures Run(c, s, es + fs) == Run(c, Run(c, s, es), fs)
    decreases |fs|
  {
    hide Apply;
    if fs == [] {
      assert es + fs == es;
    } else {
      var all := es + fs;
      assert all[..|all| - 1] == es + fs[..|fs| - 1] && all[|all| - 1] == fs[|fs| - 1];
      RunConcat(c, s, es, fs[..|fs| - 1]);
    }
  }

  lemma WholeNotFree(c: Config, s: State)
    requires Inv(c, s) && c.maxOrder > 0 && Left(Top(c.maxOrder)) in s.free
    ensures !Available(s.free, c.maxOrder)
  {
    hide BytesExact, ZeroPolicy, Shaped;
    var top := Top(c.maxOrder);
    assert FreePiece(Left(top)) in Pieces(s) && Inside(Left(top), top);
    forall x | x in s.free ensures x.order < c.maxOrder {
      assert FreePiece(x) in Pieces(s);
      InsideOrder(x, top);
    }
  }
}
