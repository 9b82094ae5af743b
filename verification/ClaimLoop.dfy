/** The claim loop of one bitmap word under interleaving (src/bitmap.rs:226-249): each turn loads
    the word and tries to clear its lowest set bit, and a turn is a miss when another thread
    took that bit in between.

    The misses of one visit are bounded by the bits set at its first load plus the blocks freed
    into the word while it lasts, and that bound is attained for every number of frees. The
    word width, which the source gives as the bound, holds whenever these stay within it.
 */
module ClaimLoop {
  import opened Words
  import opened Bitmaps
  import opened Blocks
  import opened BuddyInterleaving
  import opened SoloRuns

  /** One visit of a scan to a word: the `i`th word after `start` of an order's bitmap. */
  datatype Visit = Visit(target: nat, summary: Option<set<nat>>, order: nat, start: nat, i: nat)

  predicate Loading(pc: Pc, v: Visit)
  {
    pc == LoadWord(v.target, v.summary, v.order, v.start, v.i)
  }

  predicate Claiming(pc: Pc, v: Visit)
  {
    pc.ClaimBit? && pc == ClaimBit(v.target, v.summary, v.order, v.start, v.i, pc.bit)
  }

  /** The bits of the visited word that are set. */
  ghost function Set(c: Config, s: State, v: Visit): set<nat>
    requires c.Valid()
  {
    WordBits(s.free, v.order, c.bits, (v.start + v.i) % c.ScanWords(v.order))
  }

  /** The event is a failed claim of thread `t` in this loop. */
  predicate Miss(s: State, e: Event, t: nat, v: Visit)
  {
    e == Step(t) && Claiming(s.At(t), v) && Block(v.order, s.At(t).bit) !in s.free
  }

  ghost function Misses(c: Config, s: State, es: seq<Event>, t: nat, v: Visit): nat
    requires c.Valid()
  {
    if es == [] then 0
    else Misses(c, s, es[..|es| - 1], t, v) + if Miss(Run(c, s, es[..|es| - 1]), es[|es| - 1], t, v) then 1 else 0
  }

  // ----- the bound

  /** How many blocks an event frees into the visited word. */
  ghost function FreedInto(c: Config, s: State, e: Event, v: Visit): nat
    requires c.Valid()
  {
    |Set(c, Apply(c, s, e), v) - Set(c, s, v)|
  }

  /** The blocks freed into the visited word over a run. */
  ghost function Frees(c: Config, s: State, es: seq<Event>, v: Visit): nat
    requires c.Valid()
  {
    if es == [] then 0
    else Frees(c, s, es[..|es| - 1], v) + FreedInto(c, Run(c, s, es[..|es| - 1]), es[|es| - 1], v)
  }

  /** The bits the loop can still try: those set, and the one it is about to claim. */
  ghost function Chances(c: Config, s: State, t: nat, v: Visit): nat
    requires c.Valid()
  {
    if Claiming(s.At(t), v) then |Set(c, s, v) + {s.At(t).bit}| else |Set(c, s, v)|
  }

  ghost predicate InLoop(s: State, t: nat, v: Visit)
  {
    Loading(s.At(t), v) || Claiming(s.At(t), v)
  }

  /** A miss uses up a chance, and only a free gives a new one. */
  lemma MissCosts(c: Config, s: State, e: Event, t: nat, v: Visit)
    requires c.Valid() && InLoop(s, t, v) && InLoop(Apply(c, s, e), t, v)
    ensures Chances(c, Apply(c, s, e), t, v) + (if Miss(s, e, t, v) then 1 else 0)
            <= Chances(c, s, t, v) + FreedInto(c, s, e, v)
  {
    hide Pow2, Lo, Hi, NextOrder, StepOf;
    var s' := Apply(c, s, e);
    var a, b := Set(c, s, v), Set(c, s', v);
    if e == Step(t) && Claiming(s.At(t), v) {
      ClaimMissed(c, s, t, v);
      SmallerSet(b, a + {s.At(t).bit}, s.At(t).bit);
    } else if e == Step(t) {
      LoadFinds(c, s, t, v);
    } else {
      OtherLeaves(c, s, e, t);
      GrowsBy(a, b, {});
      if Claiming(s.At(t), v) { GrowsBy(a, b, {s.At(t).bit}); }
    }
  }

  lemma GrowsBy(a: set<nat>, b: set<nat>, x: set<nat>)
    ensures |b + x| <= |a + x| + |b - a|
  {
    SubsetSize(b + x, (a + x) + (b - a));
    UnionSize(a + x, b - a);
    if x == {} { assert b + x == b && a + x == a; }
  }

  lemma UnionSize(a: set<nat>, b: set<nat>)
    ensures |a + b| <= |a| + |b|
  {
    assert a + b == a + (b - a) && a * (b - a) == {};
    SubsetSize(b - a, b);
  }

  /** A claim that leaves the thread in the loop was a miss, and the bit is not set. */
  lemma ClaimMissed(c: Config, s: State, t: nat, v: Visit)
    requires c.Valid() && Claiming(s.At(t), v) && InLoop(Apply(c, s, Step(t)), t, v)
    ensures Miss(s, Step(t), t, v) && Loading(Apply(c, s, Step(t)).At(t), v)
    ensures Set(c, Apply(c, s, Step(t)), v) == Set(c, s, v) && s.At(t).bit !in Set(c, s, v)
  {
    hide Pow2, Lo, Hi, NextOrder, Config.ScanWords;
    assert s.free - {Block(v.order, s.At(t).bit)} == s.free;
  }

  lemma LoadFinds(c: Config, s: State, t: nat, v: Visit)
    requires c.Valid() && Loading(s.At(t), v) && InLoop(Apply(c, s, Step(t)), t, v)
    ensures Apply(c, s, Step(t)).free == s.free && Claiming(Apply(c, s, Step(t)).At(t), v)
    ensures Apply(c, s, Step(t)).At(t).bit in Set(c, s, v)
    ensures Chances(c, Apply(c, s, Step(t)), t, v) == Chances(c, s, t, v)
  {
    hide Pow2, Lo, Hi, Config.ScanWords;
    NextOrderHoldsNothing(c, v.target, v.summary, v.order + 1);
    var s' := Apply(c, s, Step(t));
    assert Claiming(s'.At(t), v);
    assert Set(c, s', v) + {s'.At(t).bit} == Set(c, s, v);
  }

  lemma OtherLeaves(c: Config, s: State, e: Event, t: nat)
    requires c.Valid() && e != Step(t) && !s.At(t).Idle?
    ensures Apply(c, s, e).At(t) == s.At(t)
  {
    hide StepOf;
  }

  lemma SmallerSet(b: set<nat>, a: set<nat>, x: nat)
    requires b <= a && x in a && x !in b
    ensures |b| + 1 <= |a|
  {
    SubsetSize(b + {x}, a);
  }

  /** The thread is in the loop at every point of the run: one visit. */
  ghost predicate Visiting(c: Config, s: State, es: seq<Event>, t: nat, v: Visit)
    requires c.Valid()
  {
    forall k :: 0 <= k <= |es| ==> InLoop(Run(c, s, es[..k]), t, v)
  }

  lemma {:induction false} MissesCost(c: Config, s: State, es: seq<Event>, t: nat, v: Visit)
    requires c.Valid() && Visiting(c, s, es, t, v)
    ensures Misses(c, s, es, t, v) + Chances(c, Run(c, s, es), t, v) <= Chances(c, s, t, v) + Frees(c, s, es, v)
  {
    hide Chances, InLoop, FreedInto, Miss, Apply;
    if es != [] {
      var init, e := es[..|es| - 1], es[|es| - 1];
      VisitingInit(c, s, es, t, v);
      MissesCost(c, s, init, t, v);
      MissCosts(c, Run(c, s, init), e, t, v);
    }
  }

  lemma VisitingInit(c: Config, s: State, es: seq<Event>, t: nat, v: Visit)
    requires c.Valid() && Visiting(c, s, es, t, v) && es != []
    ensures Visiting(c, s, es[..|es| - 1], t, v)
    ensures InLoop(Run(c, s, es[..|es| - 1]), t, v) && InLoop(Run(c, s, es), t, v)
  {
    hide InLoop, Run;
    var init := es[..|es| - 1];
    assert es[..|es|] == es;
    forall k | 0 <= k <= |init| ensures InLoop(Run(c, s, init[..k]), t, v) { assert init[..k] == es[..k]; }
  }

  /** Over any visit: the misses are at most the bits set at its first load plus the blocks
      freed into the word since. */
  lemma MissesWithinFrees(c: Config, s: State, es: seq<Event>, t: nat, v: Visit)
    requires c.Valid() && Loading(s.At(t), v) && Visiting(c, s, es, t, v)
    ensures Misses(c, s, es, t, v) <= |Set(c, s, v)| + Frees(c, s, es, v)
  {
    hide Visiting, Set;
    MissesCost(c, s, es, t, v);
  }

  /** A word has no more set bits than its width. */
  lemma WordWidth(c: Config, s: State, v: Visit)
    requires c.Valid()
    ensures |Set(c, s, v)| <= c.bits
  {
    hide Config.ScanWords;
    var w := (v.start + v.i) % c.ScanWords(v.order);
    forall b | b in Set(c, s, v) ensures w * c.bits <= b < w * c.bits + c.bits { DivModSplit(b, c.bits); }
    IntervalSize(Set(c, s, v), w * c.bits, c.bits);
  }

  lemma {:induction false} IntervalSize(a: set<nat>, lo: nat, n: nat)
    requires forall x :: x in a ==> lo <= x < lo + n
    ensures |a| <= n
  {
    if n == 0 {
      if x :| x in a { assert false; }
      assert a == {};
    } else {
      var last := lo + n - 1;
      IntervalSize(a - {last}, lo, n - 1);
      if last in a { assert a == a - {last} + {last}; } else { assert a == a - {last}; }
    }
  }

  /** The bound the source gives: a visit into whose word nothing is freed misses at most as
      often as the word is wide, and so does one whose frees fit beside the bits first set. */
  lemma MissesBounded(c: Config, s: State, es: seq<Event>, t: nat, v: Visit)
    requires c.Valid() && Loading(s.At(t), v) && Visiting(c, s, es, t, v)
    ensures Frees(c, s, es, v) == 0 ==> Misses(c, s, es, t, v) <= |Set(c, s, v)| <= c.bits
    ensures |Set(c, s, v)| + Frees(c, s, es, v) <= c.bits ==> Misses(c, s, es, t, v) <= c.bits
  {
    hide Visiting, Set, Frees, Misses;
    MissesWithinFrees(c, s, es, t, v);
    WordWidth(c, s, v);
  }

  // ----- the bound is attained, for every number of frees

  lemma MissesSnoc(c: Config, s: State, es: seq<Event>, e: Event, t: nat, v: Visit)
    requires c.Valid()
    ensures Misses(c, s, es + [e], t, v) == Misses(c, s, es, t, v) + if Miss(Run(c, s, es), e, t, v) then 1 else 0
  {
    assert (es + [e])[..|es|] == es;
  }

  /** Events of another thread are no misses of this one. */
  lemma {:induction false} MissesByOther(c: Config, s: State, es: seq<Event>, es': seq<Event>, u: nat, t: nat, v: Visit)
    requires c.Valid() && Extends(es, es', u) && u != t
    ensures Misses(c, s, es', t, v) == Misses(c, s, es, t, v)
    decreases |es'|
  {
    if |es'| == |es| {
      assert es' == es;
    } else {
      MissesByOther(c, s, es, es'[..|es'| - 1], u, t, v);
    }
  }

  /** The first word of the only order. */
  function OnlyWord(): Visit { Visit(0, Some({0}), 0, 0, 0) }

  /** Thread 1 is about to load the word of a one-block arena, and thread 2 is idle. */
  ghost predicate Cornered(s: State)
  {
    s.free == {Top(0)} && s.summary == {0} && s.live == map[] && Loading(s.At(1), OnlyWord()) && s.At(2) == Idle
  }

  /** Thread 2 allocates the block between the load and the claim of thread 1. */
  lemma StolenBlock(c: Config, s: State, es: seq<Event>, cur: State) returns (es': seq<Event>, next: State)
    requires c.Valid() && c.maxOrder == 0 && cur == Run(c, s, es) && Cornered(cur)
    ensures next == Run(c, s, es') && es <= es' && Misses(c, s, es', 1, OnlyWord()) == Misses(c, s, es, 1, OnlyWord())
    ensures Claiming(next.At(1), OnlyWord()) && next.At(1).bit == 0 && next.At(2) == Idle
    ensures next.free == {} && next.summary == {} && next.live == map[cur.nextHandle := Top(0)]
    ensures NeverRestarts(es, es') && Gains(c, s, es') == Gains(c, s, es)
  {
    hide Run, Pow2, Lo, Hi, WordBits, Least, StepOf, AfterSplit, Misses, NextOrder, Gains;
    SmallBitmap(c, 0);
    var found, taken;
    LoadStep(c, cur);
    es', found := Advance(c, s, es, cur, Step(1));
    GainsSnoc(c, s, es, Step(1));
    NoGain(cur.free, found.free);
    MissesSnoc(c, s, es, Step(1), 1, OnlyWord());
    assert found.At(2) == cur.At(2);
    var fs, gs;
    fs, taken := SearchRuns(c, s, es', found, 2, 0, Top(0));
    MissesByOther(c, s, es', fs, 2, 1, OnlyWord());
    gs, next := GrantRuns(c, s, fs, taken, 2, Top(0));
    MissesByOther(c, s, fs, gs, 2, 1, OnlyWord());
    es' := gs;
  }

  /** The run goes on from `es` without a new allocation by thread 1. */
  ghost predicate NeverRestarts(es: seq<Event>, es': seq<Event>)
  {
    es <= es' && forall k :: |es| <= k < |es'| ==> !(es'[k].StartAlloc? && es'[k].t == 1)
  }

  lemma LoadStep(c: Config, s: State)
    requires c.Valid() && c.ScanWords(0) == 1 && s.free == {Top(0)} && Loading(s.At(1), OnlyWord())
    ensures var s' := Apply(c, s, Step(1));
            && Claiming(s'.At(1), OnlyWord()) && s'.At(1).bit == 0
            && s'.free == s.free && s'.summary == s.summary && s'.live == s.live && s'.nextHandle == s.nextHandle
  {
    hide Pow2, Lo, Hi, NextOrder, AfterSplit;
    DivModUnique(0, 0, c.bits, 0);
    OnlyBit(s.free, Top(0), c.bits);
  }

  /** Thread 1 misses the block that thread 2 has taken. */
  lemma MissedBlock(c: Config, s: State, es: seq<Event>, cur: State) returns (es': seq<Event>, next: State)
    requires c.Valid() && c.maxOrder == 0 && cur == Run(c, s, es) && Cornered(cur)
    ensures next == Run(c, s, es') && NeverRestarts(es, es') && Gains(c, s, es') == Gains(c, s, es)
    ensures Misses(c, s, es', 1, OnlyWord()) == Misses(c, s, es, 1, OnlyWord()) + 1
    ensures Loading(next.At(1), OnlyWord()) && next.At(2) == Idle
    ensures next.free == {} && next.summary == {} && next.live == map[cur.nextHandle := Top(0)]
  {
    hide Run, Pow2, Lo, Hi, WordBits, Least, NextOrder, Misses, Gains;
    var stolen, fs;
    fs, stolen := StolenBlock(c, s, es, cur);
    es', next := Advance(c, s, fs, stolen, Step(1));
    MissesSnoc(c, s, fs, Step(1), 1, OnlyWord());
    GainsSnoc(c, s, fs, Step(1));
    NoGain(stolen.free, next.free);
  }

  /** Then thread 2 returns the block, and all is as before. */
  lemma OneMoreMiss(c: Config, s: State, es: seq<Event>, cur: State) returns (es': seq<Event>, next: State)
    requires c.Valid() && c.maxOrder == 0 && cur == Run(c, s, es) && Cornered(cur)
    ensures next == Run(c, s, es') && Cornered(next) && NeverRestarts(es, es')
    ensures Misses(c, s, es', 1, OnlyWord()) == Misses(c, s, es, 1, OnlyWord()) + 1
    ensures Gains(c, s, es') <= Gains(c, s, es) + 1
  {
    hide Run, Apply, Misses, Gains;
    var missed, fs;
    fs, missed := MissedBlock(c, s, es, cur);
    es', next := ReturnBlock(c, s, fs, missed, cur.nextHandle);
    MissesByOther(c, s, fs, es', 2, 1, OnlyWord());
  }

  lemma ReturnBlock(c: Config, s: State, es: seq<Event>, cur: State, handle: nat) returns (es': seq<Event>, next: State)
    requires c.Valid() && c.maxOrder == 0 && cur == Run(c, s, es) && cur.At(2) == Idle
    requires cur.free == {} && cur.summary == {} && cur.live == map[handle := Top(0)]
    ensures next == Run(c, s, es') && Extends(es, es', 2) && next.At(1) == cur.At(1) && next.At(2) == Idle
    ensures Gains(c, s, es') <= Gains(c, s, es) + 1
    ensures next.free == {Top(0)} && next.summary == {0} && next.live == map[]
  {
    hide Run, Apply, Gains;
    es', next := BeginReturn(c, s, es, cur, handle);
    es', next := ScrubRuns(c, s, es', next, 2, Top(0));
    es', next := RaiseRuns(c, s, es', next, 2, Top(0));
    es', next := PublishRuns(c, s, es', next, 2, Top(0));
  }

  lemma BeginReturn(c: Config, s: State, es: seq<Event>, cur: State, handle: nat) returns (es': seq<Event>, next: State)
    requires c.Valid() && cur == Run(c, s, es) && cur.At(2) == Idle && cur.live == map[handle := Top(0)]
    ensures next == Run(c, s, es') && Extends(es, es', 2) && Gains(c, s, es') == Gains(c, s, es)
    ensures next.At(1) == cur.At(1) && next.At(2) == RecordFree(Top(0))
    ensures next.free == cur.free && next.summary == cur.summary && next.live == map[]
  {
    hide Run, StepOf, Gains;
    es', next := Advance(c, s, es, cur, StartRelease(2, handle));
    GainsSnoc(c, s, es, StartRelease(2, handle));
    NoGain(cur.free, next.free);
    assert next.live == map[];
  }

  /** Thread 1 begins its allocation and comes to the word. */
  function Corner(): seq<Event> { [StartAlloc(1, 0), Step(1), Step(1)] }

  /** In a new one-block arena, under either policy and for every number of misses, some run
      makes one allocation miss that often on one word, with as many blocks freed into it. */
  lemma {:induction false} MissesUnbounded(c: Config, dirty: set<nat>, n: nat) returns (es: seq<Event>, cur: State)
    requires c.Valid() && c.maxOrder == 0
    ensures cur == Run(c, Init(c, dirty), es) && Cornered(cur) && NeverRestarts(Corner(), es)
    ensures Misses(c, Init(c, dirty), es, 1, OnlyWord()) == n
    ensures Gains(c, Init(c, dirty), es) <= n && Frees(c, Init(c, dirty), es, OnlyWord()) <= n
    decreases n
  {
    hide Run, Misses, Cornered, Gains, Frees;
    if n == 0 {
      es, cur := CornerRuns(c, dirty);
    } else {
      var fs, last;
      fs, last := MissesUnbounded(c, dirty, n - 1);
      es, cur := OneMoreMiss(c, Init(c, dirty), fs, last);
    }
    FreesWithinGains(c, Init(c, dirty), es, OnlyWord());
  }

  /** The bound of a visit is attained: with one bit set at its first load and `n` blocks freed
      into the word, an allocation misses `n + 1` times. */
  lemma BoundAttained(c: Config, dirty: set<nat>, n: nat) returns (es: seq<Event>)
    requires c.Valid() && c.maxOrder == 0
    ensures var init := Init(c, dirty);
            && NeverRestarts(Corner(), es)
            && Loading(Run(c, init, Corner()).At(1), OnlyWord()) && |Set(c, Run(c, init, Corner()), OnlyWord())| == 1
            && Misses(c, init, es, 1, OnlyWord()) == n + 1 && Frees(c, init, es, OnlyWord()) <= n
  {
    hide Run, Misses, Gains, Frees, Apply;
    var init := Init(c, dirty);
    var corner, cornered := CornerRuns(c, dirty);
    SmallBitmap(c, 0);
    DivModUnique(0, 0, c.bits, 0);
    OnlyBit(cornered.free, Top(0), c.bits);
    assert Set(c, cornered, OnlyWord()) == {0};
    var fs, last := MissesUnbounded(c, dirty, n);
    var end;
    es, end := MissedBlock(c, init, fs, last);
    FreesWithinGains(c, init, es, OnlyWord());
  }

  /** What is freed into a word is freed. */
  lemma {:induction false} FreesWithinGains(c: Config, s: State, es: seq<Event>, v: Visit)
    requires c.Valid()
    ensures Frees(c, s, es, v) <= Gains(c, s, es)
  {
    hide Apply, Config.ScanWords;
    if es != [] {
      var init, e := es[..|es| - 1], es[|es| - 1];
      FreesWithinGains(c, s, init, v);
      var a, b := Run(c, s, init), Apply(c, Run(c, s, init), e);
      IndexSize(Set(c, b, v) - Set(c, a, v), b.free - a.free, v.order);
    }
  }

  lemma {:induction false} IndexSize(xs: set<nat>, bs: set<Block>, order: nat)
    requires forall x :: x in xs ==> Block(order, x) in bs
    ensures |xs| <= |bs|
    decreases |xs|
  {
    if xs != {} {
      var x :| x in xs;
      IndexSize(xs - {x}, bs - {Block(order, x)}, order);
    }
  }

  lemma CornerRuns(c: Config, dirty: set<nat>) returns (es: seq<Event>, cur: State)
    requires c.Valid() && c.maxOrder == 0
    ensures cur == Run(c, Init(c, dirty), es) && es == Corner()
    ensures Cornered(cur) && Misses(c, Init(c, dirty), es, 1, OnlyWord()) == 0 && Gains(c, Init(c, dirty), es) == 0
  {
    hide Run, Pow2, Lo, Hi, WordBits, Least, Misses, Gains;
    SmallBitmap(c, 0);
    var init := Init(c, dirty);
    RunEmpty(c, init);
    NoMisses(c, init);
    es, cur := CornerStep(c, init, [], init, StartAlloc(1, 0));
    es, cur := CornerStep(c, init, es, cur, Step(1));
    assert cur.At(1) == Bump(0, Some({0}), 0);
    es, cur := CornerStep(c, init, es, cur, Step(1));
  }

  lemma CornerStep(c: Config, s: State, es: seq<Event>, cur: State, e: Event) returns (es': seq<Event>, next: State)
    requires c.Valid() && cur == Run(c, s, es)
    requires !Miss(cur, e, 1, OnlyWord()) && Apply(c, cur, e).free <= cur.free
    ensures es' == es + [e] && next == Run(c, s, es') && next == Apply(c, cur, e)
    ensures Misses(c, s, es', 1, OnlyWord()) == Misses(c, s, es, 1, OnlyWord()) && Gains(c, s, es') == Gains(c, s, es)
  {
    hide Run, Misses, Gains, Apply;
    es', next := Advance(c, s, es, cur, e);
    MissesSnoc(c, s, es, e, 1, OnlyWord());
    GainsSnoc(c, s, es, e);
    NoGain(cur.free, next.free);
  }

  lemma NoMisses(c: Config, s: State)
    requires c.Valid()
    ensures Misses(c, s, [], 1, OnlyWord()) == 0 && Gains(c, s, []) == 0
  {
  }
}
