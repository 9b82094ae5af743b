/** Calls on the buddy arena that nobody interrupts, step by atomic step (src/buddy.rs:187-327
    and 703-743): from a state whose summary word is exact they do what the whole operations
    do, and leave it exact.
 */
module BuddySolo {
  import opened Words
  import opened Bitmaps
  import opened Blocks
  import opened FreeMaps
  import opened BuddyInterleaving
  import opened BuddyCalls
  import opened SoloRuns

  /** Every free block lies in the arena, and the summary shows exactly the orders with one. */
  ghost predicate Exact(c: Config, s: State)
  {
    && (forall x :: x in s.free ==> InArena(c, x))
    && (forall o: nat :: o in s.summary <==> !EmptyAt(s.free, o))
  }

  function Cursor(s: State, o: nat): nat { if o in s.cursors then s.cursors[o] else 0 }

  /** The cursor of order `o`, after it moved if the call searched that order. */
  function Bumped(c: Config, s: State, o: nat, searched: bool): nat
  {
    if searched then (Cursor(s, o) + 1) % Pow2(c.bits) else Cursor(s, o)
  }

  /** Only what thread `t` is doing, and the cursors, may differ. */
  ghost predicate OnlySearched(a: State, b: State, t: nat)
  {
    && b.free == a.free && b.summary == a.summary && b.live == a.live && b.nextHandle == a.nextHandle
    && forall u: nat :: u != t ==> b.At(u) == a.At(u)
  }

  // ----- the scan of one order

  /** The words of order `o` before distance `i` hold no free block. */
  ghost predicate EmptyUpTo(c: Config, s: State, o: nat, start: nat, i: nat)
    requires c.Valid()
  {
    && start < c.ScanWords(o)
    && forall x :: x in s.free && x.order == o ==> InArena(c, x) && Ahead(c, x, start, i)
  }

  lemma PickHere(c: Config, s: State, o: nat, start: nat, i: nat)
    requires c.Valid() && i < c.ScanWords(o) && EmptyUpTo(c, s, o, start, i)
    requires WordBits(s.free, o, c.bits, (start + i) % c.ScanWords(o)) != {}
    ensures var b := Least(WordBits(s.free, o, c.bits, (start + i) % c.ScanWords(o)));
            IsPick(c.bits, c.ScanWords(o), start, IndicesAt(s.free, o), b) && !EmptyAt(s.free, o)
  {
    hide Config.ScanWords, Least;
    var n, w := c.ScanWords(o), (start + i) % c.ScanWords(o);
    var b := Least(WordBits(s.free, o, c.bits, w));
    ScanReaches(n, start, w, i);
    assert Block(o, b) in s.free;
    forall x | x in IndicesAt(s.free, o) && WordOf(c.bits, x) < n
      ensures || ScanDistance(n, start, WordOf(c.bits, b)) < ScanDistance(n, start, WordOf(c.bits, x))
              || (WordOf(c.bits, b) == WordOf(c.bits, x) && b <= x)
    {
      assert Block(o, x) in s.free;
      ScanReaches(n, start, WordOf(c.bits, x), i);
    }
  }

  lemma NextEmpty(c: Config, s: State, s1: State, o: nat, start: nat, i: nat)
    requires c.Valid() && i < c.ScanWords(o) && EmptyUpTo(c, s, o, start, i) && s1.free == s.free
    requires WordBits(s.free, o, c.bits, (start + i) % c.ScanWords(o)) == {}
    ensures i + 1 < c.ScanWords(o) ==> EmptyUpTo(c, s1, o, start, i + 1)
    ensures i + 1 == c.ScanWords(o) ==> EmptyAt(s.free, o)
  {
    hide Config.ScanWords, WordBits;
    forall x | x in s.free && x.order == o ensures i + 1 < c.ScanWords(o) && Ahead(c, x, start, i + 1) {
      LoadAhead(c, s, x, start, i);
    }
  }

  lemma {:induction false} ScanRuns(
    c: Config, s: State, es: seq<Event>, cur: State, t: nat, target: nat, summary: Option<set<nat>>, o: nat,
    start: nat, i: nat)
    returns (es': seq<Event>, next: State)
    requires c.Valid() && cur == Run(c, s, es) && cur.At(t) == LoadWord(target, summary, o, start, i)
    requires i < c.ScanWords(o) && EmptyUpTo(c, cur, o, start, i)
    ensures Extends(es, es', t) && next == Run(c, s, es') && Undisturbed(cur, next, t)
    ensures if EmptyAt(cur.free, o) then next.At(t) == NextOrder(c, target, summary, o + 1)
            else exists j, b: nat ::
                   && next.At(t) == ClaimBit(target, summary, o, start, j, b)
                   && IsPick(c.bits, c.ScanWords(o), start, IndicesAt(cur.free, o), b)
    decreases c.ScanWords(o) - i
  {
    hide Gains, Run, Config.ScanWords, WordBits, Least, Pow2, IsPick, EmptyUpTo, NextOrder, EmptyAt, Lo, Hi;
    es', next := SoloStep(c, s, es, cur, t);
    if WordBits(cur.free, o, c.bits, (start + i) % c.ScanWords(o)) != {} {
      PickHere(c, cur, o, start, i);
    } else {
      NextEmpty(c, cur, next, o, start, i);
      if i + 1 < c.ScanWords(o) { es', next := ScanRuns(c, s, es', next, t, target, summary, o, start, i + 1); }
    }
  }

  lemma FreeAhead(c: Config, s: State, o: nat, start: nat)
    requires c.Valid() && Exact(c, s) && start < c.ScanWords(o)
    ensures EmptyUpTo(c, s, o, start, 0)
  {
    hide Config.ScanWords;
    forall x | x in s.free && x.order == o ensures InArena(c, x) && Ahead(c, x, start, 0) { Starts(c, x, start); }
  }

  /** From the cursor of one order to its pick, or to the next order if it has no free block. */
  lemma OrderRuns(
    c: Config, s: State, es: seq<Event>, cur: State, t: nat, target: nat, summary: Option<set<nat>>, o: nat)
    returns (es': seq<Event>, next: State)
    requires c.Valid() && cur == Run(c, s, es) && cur.At(t) == Bump(target, summary, o) && Exact(c, cur)
    ensures Extends(es, es', t) && next == Run(c, s, es') && OnlySearched(cur, next, t)
    ensures forall p: nat :: Cursor(next, p) == Bumped(c, cur, p, p == o)
    ensures if EmptyAt(cur.free, o) then next.At(t) == NextOrder(c, target, summary, o + 1)
            else exists j, b: nat ::
                   && next.At(t) == ClaimBit(target, summary, o, Cursor(cur, o) % c.ScanWords(o), j, b)
                   && IsPick(c.bits, c.ScanWords(o), Cursor(cur, o) % c.ScanWords(o), IndicesAt(cur.free, o), b)
  {
    hide Gains, Run, Config.ScanWords, WordBits, Least, Pow2, IsPick, EmptyUpTo, NextOrder, EmptyAt, Lo, Hi, Exact;
    var start := Cursor(cur, o) % c.ScanWords(o);
    FreeAhead(c, cur, o, start);
    es', next := SoloStep(c, s, es, cur, t);
    SameEmpty(c, cur, next, o, start);
    es', next := ScanRuns(c, s, es', next, t, target, summary, o, start, 0);
  }

  lemma SameEmpty(c: Config, a: State, b: State, o: nat, start: nat)
    requires c.Valid() && EmptyUpTo(c, a, o, start, 0) && b.free == a.free
    ensures EmptyUpTo(c, b, o, start, 0)
  {
  }

  // ----- the summary after a claim

  /** The words of order `o` before `w` hold no free block. */
  ghost predicate NoneBelow(c: Config, s: State, o: nat, w: nat)
    requires c.Valid()
  {
    forall x :: x in s.free && x.order == o ==> InArena(c, x) && WordOf(c.bits, x.idx) >= w
  }

  lemma NextWord(c: Config, s: State, o: nat, w: nat)
    requires c.Valid() && NoneBelow(c, s, o, w)
    ensures if WordBits(s.free, o, c.bits, w) != {} then !EmptyAt(s.free, o) else NoneBelow(c, s, o, w + 1)
    ensures w >= c.ActualWords(o) ==> EmptyAt(s.free, o)
  {
    hide Config.ActualWords;
    if WordBits(s.free, o, c.bits, w) != {} {
      var b :| b in WordBits(s.free, o, c.bits, w);
      assert Block(o, b) in s.free;
    } else {
      forall x | x in s.free && x.order == o ensures WordOf(c.bits, x.idx) >= w + 1 {
        assert x.idx in WordBits(s.free, o, c.bits, w) <==> WordOf(c.bits, x.idx) == w;
      }
    }
    if w >= c.ActualWords(o) {
      forall x | x in s.free ensures x.order != o { if x.order == o { WordHeld(c, x); } }
    }
  }

  lemma WordHeld(c: Config, x: Block)
    requires c.Valid() && InArena(c, x)
    ensures WordOf(c.bits, x.idx) < c.ActualWords(x.order)
  {
    hide WordOf, Pow2;
    CeilCovers(c.Blocks(x.order), c.bits, c.ActualWords(x.order));
    WordInRange(c.bits, x.idx, c.Blocks(x.order), c.ActualWords(x.order));
  }

  /** The summary without order `o` if that has no free block. */
  ghost function Lowered(summary: set<nat>, free: set<Block>, o: nat): set<nat>
  {
    if EmptyAt(free, o) then summary - {o} else summary
  }

  /** After a claim for an allocation: the words are checked and the bit cleared if all are empty. */
  lemma {:induction false} AllocCheckRuns(
    c: Config, s: State, es: seq<Event>, cur: State, t: nat, target: nat, h: Block, w: nat)
    returns (es': seq<Event>, next: State)
    requires c.Valid() && cur == Run(c, s, es) && cur.At(t) == AllocCheck(target, h, w) && NoneBelow(c, cur, h.order, w)
    ensures Extends(es, es', t) && next == Run(c, s, es') && next.At(t) == AfterSplit(c, target, h)
    ensures next.free == cur.free && next.live == cur.live && next.nextHandle == cur.nextHandle
    ensures next.cursors == cur.cursors && next.summary == Lowered(cur.summary, cur.free, h.order)
    ensures forall u: nat :: u != t ==> next.At(u) == cur.At(u)
    decreases c.ActualWords(h.order) + 1 - w
  {
    hide Gains, Run, Config.ActualWords, WordBits, Least, Pow2, NextOrder, EmptyAt, Lo, Hi, NoneBelow, AfterSplit;
    NextWord(c, cur, h.order, w);
    es', next := SoloStep(c, s, es, cur, t);
    if WordBits(cur.free, h.order, c.bits, w) == {} {
      SameBelow(c, cur, next, h.order, w + 1);
      if w + 1 < c.ActualWords(h.order) {
        es', next := AllocCheckRuns(c, s, es', next, t, target, h, w + 1);
      } else {
        NextWord(c, cur, h.order, w + 1);
        es', next := SoloStep(c, s, es', next, t);
      }
    }
  }

  lemma SameBelow(c: Config, a: State, b: State, o: nat, w: nat)
    requires c.Valid() && NoneBelow(c, a, o, w) && b.free == a.free
    ensures NoneBelow(c, b, o, w)
  {
  }

  /** The same after a climb has claimed a buddy. */
  lemma {:induction false} ClimbCheckRuns(
    c: Config, s: State, es: seq<Event>, cur: State, t: nat, h: Block, from: nat, w: nat)
    returns (es': seq<Event>, next: State)
    requires c.Valid() && cur == Run(c, s, es) && cur.At(t) == ClimbCheck(h, from, w) && NoneBelow(c, cur, from, w)
    ensures Extends(es, es', t) && next == Run(c, s, es') && next.At(t) == AfterScrub(c, h)
    ensures next.free == cur.free && next.live == cur.live && next.nextHandle == cur.nextHandle
    ensures next.cursors == cur.cursors && next.summary == Lowered(cur.summary, cur.free, from)
    ensures forall u: nat :: u != t ==> next.At(u) == cur.At(u)
    decreases c.ActualWords(from) + 1 - w
  {
    hide Gains, Run, Config.ActualWords, WordBits, Least, Pow2, NextOrder, EmptyAt, Lo, Hi, NoneBelow, AfterScrub;
    NextWord(c, cur, from, w);
    es', next := SoloStep(c, s, es, cur, t);
    if WordBits(cur.free, from, c.bits, w) == {} {
      SameBelow(c, cur, next, from, w + 1);
      if w + 1 < c.ActualWords(from) {
        es', next := ClimbCheckRuns(c, s, es', next, t, h, from, w + 1);
      } else {
        NextWord(c, cur, from, w + 1);
        es', next := SoloStep(c, s, es', next, t);
      }
    }
  }

  // ----- splitting

  /** The right halves that splitting `h` down to `target` publishes. */
  function Rights(h: Block, target: nat): set<Block>
    decreases h.order
  {
    if h.order <= target then {} else {Right(h)} + Rights(Left(h), target)
  }

  lemma {:induction false} RightsOrders(h: Block, target: nat, o: nat)
    ensures (exists x :: x in Rights(h, target) && x.order == o) <==> target <= o < h.order
    decreases h.order
  {
    if h.order > target {
      RightsOrders(Left(h), target, o);
      if o == h.order - 1 { assert Right(h) in Rights(h, target); }
      if target <= o < h.order - 1 {
        var x :| x in Rights(Left(h), target) && x.order == o;
        assert x in Rights(h, target);
      }
    }
  }

  lemma {:induction false} SplitRuns(c: Config, s: State, es: seq<Event>, cur: State, t: nat, target: nat, h: Block)
    returns (es': seq<Event>, next: State)
    requires c.Valid() && cur == Run(c, s, es) && cur.At(t) == AfterSplit(c, target, h) && target <= h.order
    ensures Extends(es, es', t) && next == Run(c, s, es') && next.At(t) == AfterSplit(c, target, Leftmost(h, target))
    ensures next.free == cur.free + Rights(h, target) && next.live == cur.live && next.nextHandle == cur.nextHandle
    ensures next.cursors == cur.cursors
    ensures forall o: nat :: o in next.summary <==> o in cur.summary || target <= o < h.order
    ensures forall u: nat :: u != t ==> next.At(u) == cur.At(u)
    decreases h.order
  {
    hide Gains, Run, WordBits, Least, Pow2, NextOrder, Lo, Hi;
    if h.order == target {
      es', next := es, cur;
    } else {
      var more;
      es', more := SplitOnceRuns(c, s, es, cur, t, target, h);
      es', next := SplitRuns(c, s, es', more, t, target, Left(h));
    }
  }

  lemma SplitOnceRuns(c: Config, s: State, es: seq<Event>, cur: State, t: nat, target: nat, h: Block)
    returns (es': seq<Event>, next: State)
    requires c.Valid() && cur == Run(c, s, es) && cur.At(t) == SplitRaise(target, h) && target < h.order
    ensures Extends(es, es', t) && next == Run(c, s, es') && next.At(t) == AfterSplit(c, target, Left(h))
    ensures next.free == cur.free + {Right(h)} && next.live == cur.live && next.nextHandle == cur.nextHandle
    ensures next.cursors == cur.cursors && next.summary == cur.summary + {h.order - 1}
    ensures forall u: nat :: u != t ==> next.At(u) == cur.At(u)
  {
    hide Gains, Run, WordBits, Least, Pow2, NextOrder, Lo, Hi, AfterSplit, Config.ScanWords, Config.ActualWords;
    var raised;
    es', raised := SoloStep(c, s, es, cur, t);
    assert raised.At(t) == SplitPublish(target, h);
    es', next := Advance(c, s, es', raised, Step(t));
  }

  // ----- a whole allocation

  /** `b` is the block a whole operation would take: of the least order from `target` up that
      has a free block, the one its cursor picks. */
  ghost predicate IsFound(c: Config, s: State, target: nat, b: Block)
    requires c.Valid()
  {
    && target <= b.order <= c.maxOrder && b in s.free
    && (forall o: nat :: target <= o < b.order ==> EmptyAt(s.free, o))
    && IsPick(c.bits, c.ScanWords(b.order), Cursor(s, b.order) % c.ScanWords(b.order),
              IndicesAt(s.free, b.order), b.idx)
  }

  /** With an exact summary the loop over the orders stops at the least one with a free block. */
  lemma {:induction false} SummaryLeads(c: Config, s: State, target: nat, order: nat)
    requires Exact(c, s) && target <= order && forall o: nat :: target <= o < order ==> EmptyAt(s.free, o)
    ensures var pc := NextOrder(c, target, Some(s.summary), order);
            if CanServe(s, target)
            then && pc.Bump? && pc == Bump(target, Some(s.summary), pc.order) && target <= pc.order
                 && !EmptyAt(s.free, pc.order) && forall o: nat :: target <= o < pc.order ==> EmptyAt(s.free, o)
            else pc == if target <= c.maxOrder then Bump(target, None, target) else Idle
    decreases c.maxOrder + 1 - order
  {
    if order > c.maxOrder {
      forall x | x in s.free ensures x.order < target {
        assert InArena(c, x) && (target <= x.order < order ==> EmptyAt(s.free, x.order));
      }
    } else if order !in s.summary {
      SummaryLeads(c, s, target, order + 1);
    } else {
      var x :| x in s.free && x.order == order;
      assert x.order >= target;
    }
  }

  /** The scan of all orders when no free block can serve the call. */
  lemma {:induction false} FullScanRuns(c: Config, s: State, es: seq<Event>, cur: State, t: nat, target: nat, o: nat)
    returns (es': seq<Event>, next: State)
    requires c.Valid() && cur == Run(c, s, es) && cur.At(t) == Bump(target, None, o) && target <= o <= c.maxOrder
    requires Exact(c, cur) && forall x :: x in cur.free ==> x.order < target
    ensures Extends(es, es', t) && next == Run(c, s, es') && next.At(t) == Idle && OnlySearched(cur, next, t)
    ensures forall p: nat :: Cursor(next, p) == Bumped(c, cur, p, o <= p <= c.maxOrder)
    decreases c.maxOrder - o
  {
    hide Gains, Run, Config.ScanWords, Pow2, IsPick, Exact;
    assert EmptyAt(cur.free, o);
    es', next := OrderRuns(c, s, es, cur, t, target, None, o);
    if o < c.maxOrder {
      SameExact(c, cur, next);
      var mid := next;
      es', next := FullScanRuns(c, s, es', mid, t, target, o + 1);
    }
  }

  lemma SameExact(c: Config, a: State, b: State)
    requires Exact(c, a) && b.free == a.free && b.summary == a.summary
    ensures Exact(c, b)
  {
  }

  /** The block is claimed, split down, initialised and recorded. */
  lemma ServeRuns(c: Config, s: State, es: seq<Event>, cur: State, t: nat, target: nat, b: Block)
    returns (es': seq<Event>, next: State)
    requires c.Valid() && cur == Run(c, s, es) && Exact(c, cur) && b in cur.free && target <= b.order
    requires cur.At(t).ClaimBit? && cur.At(t).target == target && Block(cur.At(t).order, cur.At(t).bit) == b
    ensures Extends(es, es', t) && next == Run(c, s, es') && next.At(t) == Idle && Exact(c, next)
    ensures next.free == cur.free - {b} + Rights(b, target) && next.cursors == cur.cursors
    ensures next.live == cur.live[cur.nextHandle := Leftmost(b, target)] && next.nextHandle == cur.nextHandle + 1
    ensures forall u: nat :: u != t ==> next.At(u) == cur.At(u)
  {
    hide Gains, Run, WordBits, Least, Pow2, NextOrder, Lo, Hi, Exact, AfterSplit, Rights, Lowered, NoneBelow;
    es', next := SoloStep(c, s, es, cur, t);
    var claimed := next;
    AllBelow(c, cur, claimed, b);
    es', next := AllocCheckRuns(c, s, es', next, t, target, b, 0);
    var lowered := next;
    es', next := SplitRuns(c, s, es', next, t, target, b);
    ExactAfterServe(c, cur, lowered, next, b, target);
    var split := next;
    es', next := GrantRuns(c, s, es', next, t, Leftmost(b, target));
    SameExact(c, split, next);
  }

  lemma AllBelow(c: Config, a: State, b: State, x: Block)
    requires c.Valid() && Exact(c, a) && b.free == a.free - {x}
    ensures NoneBelow(c, b, x.order, 0)
  {
  }

  lemma ExactAfterServe(c: Config, a: State, m: State, z: State, b: Block, target: nat)
    requires Exact(c, a) && b in a.free && target <= b.order && m.free == a.free - {b}
    requires m.summary == Lowered(a.summary, m.free, b.order) && z.free == m.free + Rights(b, target)
    requires forall o: nat :: o in z.summary <==> o in m.summary || target <= o < b.order
    ensures Exact(c, z)
  {
    hide Rights;
    forall o: nat ensures o in m.summary <==> !EmptyAt(m.free, o) {
      if o != b.order { SameAt(a.free, b, o); }
    }
    forall o: nat ensures o in z.summary <==> !EmptyAt(z.free, o) {
      RightsOrders(b, target, o);
      UnionAt(m.free, Rights(b, target), o);
    }
    forall x | x in z.free ensures InArena(c, x) { if x !in a.free { RightsInside(c, b, target, x); } }
  }

  lemma SameAt(free: set<Block>, b: Block, o: nat)
    requires b.order != o
    ensures EmptyAt(free - {b}, o) <==> EmptyAt(free, o)
  {
    if !EmptyAt(free, o) {
      var x :| x in free && x.order == o;
      assert x in free - {b};
    }
  }

  lemma UnionAt(a: set<Block>, b: set<Block>, o: nat)
    ensures EmptyAt(a + b, o) <==> EmptyAt(a, o) && !exists x :: x in b && x.order == o
  {
    if !EmptyAt(a, o) {
      var x :| x in a && x.order == o;
      assert x in a + b;
    }
    if x :| x in b && x.order == o { assert x in a + b; }
  }

  lemma {:induction false} RightsInside(c: Config, b: Block, target: nat, x: Block)
    requires InArena(c, b) && x in Rights(b, target)
    ensures InArena(c, x)
    decreases b.order
  {
    HalvesInside(c, b);
    if x != Right(b) { RightsInside(c, Left(b), target, x); }
  }

  lemma HalvesInside(c: Config, b: Block)
    requires InArena(c, b) && b.order > 0
    ensures InArena(c, Left(b)) && InArena(c, Right(b))
  {
    Pow2Step(c.maxOrder - b.order);
  }

  /** An allocation that nobody interrupts, on an exact summary: without a free block of at
      least the order asked for it changes only the cursors of the orders it scanned. Otherwise
      it takes the block a whole operation takes, keeps its leftmost piece of that order,
      publishes the right halves, moves that one cursor, and leaves the summary exact. */
  lemma SoloAllocates(c: Config, s: State, es: seq<Event>, cur: State, t: nat, target: nat)
    returns (es': seq<Event>, next: State, b: Block)
    requires c.Valid() && cur == Run(c, s, es) && cur.At(t) == Idle && Exact(c, cur)
    ensures Extends(es, es', t) && next == Run(c, s, es') && next.At(t) == Idle && Exact(c, next)
    ensures forall u: nat :: u != t ==> next.At(u) == cur.At(u)
    ensures !CanServe(cur, target) ==>
              && OnlySearched(cur, next, t)
              && forall p: nat :: Cursor(next, p) == Bumped(c, cur, p, target <= p <= c.maxOrder)
    ensures CanServe(cur, target) ==> IsFound(c, cur, target, b) && Granted(cur, next, target, b)
    ensures CanServe(cur, target) ==> forall p: nat :: Cursor(next, p) == Bumped(c, cur, p, p == b.order)
  {
    hide Gains, Run, StepOf, Config.ScanWords, Pow2, IsFound, Granted, Exact, EmptyAt, NextOrder, Bumped;
    es', next := BeginRuns(c, s, es, cur, t, target);
    var loaded := next;
    SameExact(c, cur, loaded);
    SummaryLeadsAt(c, cur, target);
    b := Top(0);
    if CanServe(cur, target) {
      es', next, b := FoundRuns(c, s, es', loaded, t, target);
      SameFound(c, cur, loaded, next, target, b);
    } else if target <= c.maxOrder {
      es', next := FullScanRuns(c, s, es', loaded, t, target, target);
      SameExact(c, loaded, next);
      SameCursors(c, cur, loaded);
    } else {
      SameCursors(c, cur, loaded);
      NothingBumped(c, cur, target);
    }
  }

  lemma SameCursors(c: Config, a: State, b: State)
    requires b.cursors == a.cursors
    ensures forall p: nat :: Cursor(b, p) == Cursor(a, p)
    ensures forall p: nat, searched :: Bumped(c, b, p, searched) == Bumped(c, a, p, searched)
  {
  }

  lemma NothingBumped(c: Config, a: State, target: nat)
    requires target > c.maxOrder
    ensures forall p: nat :: Cursor(a, p) == Bumped(c, a, p, target <= p <= c.maxOrder)
  {
  }

  lemma SameFound(c: Config, a: State, b: State, z: State, target: nat, x: Block)
    requires c.Valid() && b.free == a.free && b.cursors == a.cursors && b.live == a.live && b.nextHandle == a.nextHandle
    requires IsFound(c, b, target, x) && Granted(b, z, target, x)
    ensures IsFound(c, a, target, x) && Granted(a, z, target, x)
    ensures forall p: nat, searched :: Bumped(c, b, p, searched) == Bumped(c, a, p, searched)
  {
  }

  ghost predicate CanServe(s: State, target: nat)
  {
    exists x :: x in s.free && x.order >= target
  }

  /** The buffer is on the leftmost piece of `b`, and the right halves are free. */
  ghost predicate Granted(a: State, z: State, target: nat, b: Block)
  {
    && target <= b.order && b in a.free && z.free == a.free - {b} + Rights(b, target)
    && z.live == a.live[a.nextHandle := Leftmost(b, target)] && z.nextHandle == a.nextHandle + 1
  }

  lemma BeginRuns(c: Config, s: State, es: seq<Event>, cur: State, t: nat, target: nat)
    returns (es': seq<Event>, next: State)
    requires c.Valid() && cur == Run(c, s, es) && cur.At(t) == Idle
    ensures Extends(es, es', t) && next == Run(c, s, es') && Undisturbed(cur, next, t)
    ensures next.At(t) == NextOrder(c, target, Some(cur.summary), target)
  {
    hide Gains, Run, NextOrder, Config.ScanWords, Pow2;
    var begun;
    es', begun := Advance(c, s, es, cur, StartAlloc(t, target));
    assert begun.At(t) == LoadSummary(target) && Undisturbed(cur, begun, t);
    es', next := SoloStep(c, s, es', begun, t);
  }

  lemma FoundRuns(c: Config, s: State, es: seq<Event>, cur: State, t: nat, target: nat)
    returns (es': seq<Event>, next: State, b: Block)
    requires c.Valid() && cur == Run(c, s, es) && Exact(c, cur) && cur.At(t).Bump? && cur.At(t).target == target
    requires target <= cur.At(t).order <= c.maxOrder && !EmptyAt(cur.free, cur.At(t).order)
    requires forall o: nat :: target <= o < cur.At(t).order ==> EmptyAt(cur.free, o)
    ensures Extends(es, es', t) && next == Run(c, s, es') && next.At(t) == Idle && Exact(c, next)
    ensures forall u: nat :: u != t ==> next.At(u) == cur.At(u)
    ensures IsFound(c, cur, target, b) && Granted(cur, next, target, b)
    ensures forall p: nat :: Cursor(next, p) == Bumped(c, cur, p, p == b.order)
  {
    hide Gains, Run, StepOf, Config.ScanWords, Pow2, IsPick, Exact, EmptyAt, Bumped, Rights;
    var o := cur.At(t).order;
    es', next := OrderRuns(c, s, es, cur, t, target, cur.At(t).summary, o);
    var found := next;
    b := Block(o, found.At(t).bit);
    PickIsFree(c, cur, o, b.idx);
    SameExact(c, cur, found);
    es', next := ServeRuns(c, s, es', found, t, target, b);
    SameCursors(c, found, next);
  }

  lemma SummaryLeadsAt(c: Config, s: State, target: nat)
    requires Exact(c, s)
    ensures var pc := NextOrder(c, target, Some(s.summary), target);
            if CanServe(s, target)
            then && pc.Bump? && pc == Bump(target, Some(s.summary), pc.order) && target <= pc.order <= c.maxOrder
                 && !EmptyAt(s.free, pc.order) && forall o: nat :: target <= o < pc.order ==> EmptyAt(s.free, o)
            else pc == if target <= c.maxOrder then Bump(target, None, target) else Idle
  {
    SummaryLeads(c, s, target, target);
    NextOrderIs(c, target, Some(s.summary), target);
  }

  lemma PickIsFree(c: Config, s: State, o: nat, idx: nat)
    requires c.Valid()
    requires IsPick(c.bits, c.ScanWords(o), Cursor(s, o) % c.ScanWords(o), IndicesAt(s.free, o), idx)
    ensures Block(o, idx) in s.free
  {
  }

  // ----- a whole return

  /** The free blocks after `h` is returned: it merges upwards while its buddy is free. */
  function Merge(c: Config, free: set<Block>, h: Block): set<Block>
    decreases c.maxOrder - h.order
  {
    if h.order < c.maxOrder && Buddy(h) in free then Merge(c, free - {Buddy(h)}, Parent(h)) else free + {h}
  }

  /** The climb, the summary bit and the publish. */
  lemma {:induction false} ClimbRuns(c: Config, s: State, es: seq<Event>, cur: State, t: nat, h: Block)
    returns (es': seq<Event>, next: State)
    requires c.Valid() && cur == Run(c, s, es) && cur.At(t) == AfterScrub(c, h) && Exact(c, cur) && InArena(c, h)
    ensures Extends(es, es', t) && next == Run(c, s, es') && next.At(t) == Idle && Exact(c, next)
    ensures next.free == Merge(c, cur.free, h) && next.live == cur.live && next.cursors == cur.cursors
    ensures forall u: nat :: u != t ==> next.At(u) == cur.At(u)
    decreases c.maxOrder - h.order
  {
    hide Gains, Run, WordBits, Least, Pow2, NextOrder, Lo, Hi, Exact, Lowered, NoneBelow, InArena, StepOf;
    if h.order < c.maxOrder && Buddy(h) in cur.free {
      es', next := ClaimBuddyRuns(c, s, es, cur, t, h);
      ParentInside(c, h);
      es', next := ClimbRuns(c, s, es', next, t, Parent(h));
    } else {
      es', next := StopRuns(c, s, es, cur, t, h);
    }
  }

  lemma ParentInside(c: Config, h: Block)
    requires InArena(c, h) && h.order < c.maxOrder
    ensures InArena(c, Parent(h))
  {
    Pow2Step(c.maxOrder - h.order - 1);
  }

  lemma ClaimBuddyRuns(c: Config, s: State, es: seq<Event>, cur: State, t: nat, h: Block)
    returns (es': seq<Event>, next: State)
    requires c.Valid() && cur == Run(c, s, es) && cur.At(t) == Climb(h) && Exact(c, cur) && Buddy(h) in cur.free
    ensures Extends(es, es', t) && next == Run(c, s, es') && next.At(t) == AfterScrub(c, Parent(h)) && Exact(c, next)
    ensures next.free == cur.free - {Buddy(h)} && next.live == cur.live && next.cursors == cur.cursors
    ensures forall u: nat :: u != t ==> next.At(u) == cur.At(u)
  {
    hide Gains, Run, WordBits, Least, Pow2, NextOrder, Lo, Hi, Exact, Lowered, NoneBelow, AfterScrub;
    es', next := SoloStep(c, s, es, cur, t);
    var claimed := next;
    AllBelow(c, cur, claimed, Buddy(h));
    es', next := ClimbCheckRuns(c, s, es', next, t, Parent(h), h.order, 0);
    ExactAfterClaim(c, cur, next, Buddy(h));
  }

  lemma ExactAfterClaim(c: Config, a: State, z: State, b: Block)
    requires Exact(c, a) && b in a.free && z.free == a.free - {b} && z.summary == Lowered(a.summary, z.free, b.order)
    ensures Exact(c, z)
  {
    forall o: nat ensures o in z.summary <==> !EmptyAt(z.free, o) { if o != b.order { SameAt(a.free, b, o); } }
  }

  lemma StopRuns(c: Config, s: State, es: seq<Event>, cur: State, t: nat, h: Block)
    returns (es': seq<Event>, next: State)
    requires c.Valid() && cur == Run(c, s, es) && cur.At(t) == AfterScrub(c, h) && Exact(c, cur) && InArena(c, h)
    requires h.order < c.maxOrder ==> Buddy(h) !in cur.free
    ensures Extends(es, es', t) && next == Run(c, s, es') && next.At(t) == Idle && Exact(c, next)
    ensures next.free == cur.free + {h} && next.live == cur.live && next.cursors == cur.cursors
    ensures forall u: nat :: u != t ==> next.At(u) == cur.At(u)
  {
    hide Gains, Run, WordBits, Least, Pow2, NextOrder, Lo, Hi, Exact, InArena;
    es', next := es, cur;
    if h.order < c.maxOrder {
      es', next := SoloStep(c, s, es, cur, t);
      assert next.free == cur.free;
    }
    assert next.At(t) == Raise(h);
    es', next := SoloStep(c, s, es', next, t);
    var raised := next;
    es', next := Advance(c, s, es', raised, Step(t));
    ExactAfterPublish(c, cur, next, h);
  }

  lemma ExactAfterPublish(c: Config, a: State, z: State, h: Block)
    requires Exact(c, a) && InArena(c, h) && z.free == a.free + {h} && z.summary == a.summary + {h.order}
    ensures Exact(c, z)
  {
    hide InArena;
    forall o: nat ensures o in z.summary <==> !EmptyAt(z.free, o) {
      UnionAt(a.free, {h}, o);
      if o == h.order { assert h in {h} && h.order == o; }
    }
  }

  /** A return that nobody interrupts, on an exact summary: the block merges upwards exactly
      while its buddy is free, nothing else changes hands, and the summary stays exact. */
  lemma SoloReturns(c: Config, s: State, es: seq<Event>, cur: State, t: nat, handle: nat)
    returns (es': seq<Event>, next: State)
    requires c.Valid() && cur == Run(c, s, es) && cur.At(t) == Idle && Exact(c, cur)
    requires handle in cur.live && InArena(c, cur.live[handle])
    ensures Extends(es, es', t) && next == Run(c, s, es') && next.At(t) == Idle && Exact(c, next)
    ensures next.free == Merge(c, cur.free, cur.live[handle]) && next.live == cur.live - {handle}
    ensures next.cursors == cur.cursors && forall u: nat :: u != t ==> next.At(u) == cur.At(u)
  {
    hide Gains, Run, StepOf, Exact, InArena, Merge;
    var begun;
    es', begun := Advance(c, s, es, cur, StartRelease(t, handle));
    SameExact(c, cur, begun);
    es', next := ScrubRuns(c, s, es', begun, t, cur.live[handle]);
    SameExact(c, begun, next);
    es', next := ClimbRuns(c, s, es', next, t, cur.live[handle]);
  }

  // ----- serial runs

  /** Whole calls one after the other. */
  datatype Call = Allocate(t: nat, target: nat) | Return(t: nat, handle: nat)

  lemma InitExact(c: Config, dirty: set<nat>)
    ensures Exact(c, Init(c, dirty))
  {
    var s := Init(c, dirty);
    forall o: nat ensures o in s.summary <==> !EmptyAt(s.free, o) {
      if o == c.maxOrder { assert Top(c.maxOrder) in s.free; }
    }
  }

  /** Any sequence of calls can run one after the other to the end, and leaves the summary
      exact and no thread at work. */
  lemma {:induction false} SerialRuns(c: Config, dirty: set<nat>, calls: seq<Call>)
    returns (es: seq<Event>, cur: State)
    requires c.Valid()
    ensures cur == Run(c, Init(c, dirty), es) && Exact(c, cur) && forall t: nat :: cur.At(t) == Idle
  {
    hide Run, Exact, Inv, InArena;
    var init := Init(c, dirty);
    if calls == [] {
      es, cur := [], init;
      RunEmpty(c, init);
      InitExact(c, dirty);
    } else {
      es, cur := SerialRuns(c, dirty, calls[..|calls| - 1]);
      var call := calls[|calls| - 1];
      InvRun(c, dirty, es);
      if call.Allocate? {
        var b;
        es, cur, b := SoloAllocates(c, init, es, cur, call.t, call.target);
      } else if call.handle in cur.live {
        LiveInArena(c, cur, call.handle);
        es, cur := SoloReturns(c, init, es, cur, call.t, call.handle);
      }
    }
  }

  lemma LiveInArena(c: Config, s: State, handle: nat)
    requires Inv(c, s) && handle in s.live
    ensures InArena(c, s.live[handle])
  {
    assert LivePiece(handle, s.live[handle]) in Pieces(s);
    InsideTop(s.live[handle], c.maxOrder);
  }
}
