/** Whole calls on the fixed arena at atomic grain (src/arena.rs:442-475, src/bitmap.rs:90-117):
    when an allocation may fail while other threads interfere, and what a call does that no
    other thread interrupts.
 */
module FixedCalls {
  import opened Words
  import opened Bitmaps
  import opened FixedInterleaving

  // ----- when an allocation may fail

  ghost function Before(c: Config, dirty: set<nat>, es: seq<Event>, k: nat): State
    requires c.Valid() && k <= |es|
  {
    Run(c, Init(c, dirty), es[..k])
  }

  lemma BeforeNext(c: Config, dirty: set<nat>, es: seq<Event>, k: nat)
    requires c.Valid() && k < |es|
    ensures Before(c, dirty, es, k + 1) == Apply(c, Before(c, dirty, es, k), es[k])
  {
    assert es[..k + 1][..k] == es[..k];
  }

  /** The step `es[j]` ends the call that thread `t` began at `es[i]`. */
  ghost predicate IsCall(c: Config, dirty: set<nat>, es: seq<Event>, i: nat, j: nat, t: nat)
    requires c.Valid()
  {
    && i < j < |es| && es[i] == StartAlloc(t) && Before(c, dirty, es, i).At(t).Idle? && es[j] == Step(t)
    && (forall k :: i < k <= j ==> !Before(c, dirty, es, k).At(t).Idle?)
    && Before(c, dirty, es, j + 1).At(t).Idle?
  }

  lemma WordScanned(c: Config, x: nat)
    requires c.Valid() && x < c.slotCount
    ensures WordOf(c.bits, x) < c.ScanWords()
  {
    hide WordOf, Pow2;
    var words := (c.slotCount + c.bits - 1) / c.bits;
    CeilCovers(c.slotCount, c.bits, c.ScanWords());
    WordInRange(c.bits, x, c.slotCount, c.ScanWords());
  }

  /** The search has not passed the word of slot `x`. */
  predicate Ahead(c: Config, x: nat, start: nat, i: nat)
    requires c.Valid() && x < c.slotCount
  {
    WordScanned(c, x);
    start < c.ScanWords() && i <= ScanDistance(c.ScanWords(), start, WordOf(c.bits, x))
  }

  predicate Looking(c: Config, x: nat, pc: Pc)
    requires c.Valid() && x < c.slotCount
  {
    match pc
    case Bump => true
    case LoadWord(start, i) => Ahead(c, x, start, i)
    case ClaimBit(start, i, _) => Ahead(c, x, start, i)
    case _ => Allocating(pc)
  }

  lemma LoadAhead(c: Config, s: State, x: nat, start: nat, i: nat)
    requires c.Valid() && x < c.slotCount && x in s.free && Ahead(c, x, start, i)
    ensures var slots := WordSlots(c, s, (start + i) % c.ScanWords());
            slots == {} ==> i + 1 < c.ScanWords() && Ahead(c, x, start, i + 1)
  {
    hide Config.ScanWords, WordOf;
    WordScanned(c, x);
    ScanReaches(c.ScanWords(), start, WordOf(c.bits, x), i);
  }

  /** While a slot stays free, a search neither passes it nor gives up. */
  lemma LookingStep(c: Config, s: State, e: Event, t: nat, x: nat)
    requires c.Valid() && x < c.slotCount && x in s.free && Looking(c, x, s.At(t))
    ensures Looking(c, x, Apply(c, s, e).At(t)) || (e == Step(t) && s.At(t).RecordAlloc?)
  {
    hide Config.ScanWords, WordSlots, Least, Pow2, Ahead;
    var pc := s.At(t);
    if e == Step(t) {
      if pc.Bump? { WordScanned(c, x); Starts(c, x, s.cursor % c.ScanWords()); }
      if pc.LoadWord? { LoadAhead(c, s, x, pc.start, pc.i); }
    } else if e.Write? || e.t != t {
      OthersStay(c, s, e, t);
    }
  }

  lemma Starts(c: Config, x: nat, start: nat)
    requires c.Valid() && x < c.slotCount && start < c.ScanWords()
    ensures Ahead(c, x, start, 0)
  {
  }

  lemma {:induction false} LookingRun(
    c: Config, dirty: set<nat>, es: seq<Event>, i: nat, j: nat, t: nat, x: nat, k: nat)
    requires c.Valid() && x < c.slotCount && IsCall(c, dirty, es, i, j, t) && i < k <= j
    requires forall n :: i < n <= j ==> x in Before(c, dirty, es, n).free
    ensures Looking(c, x, Before(c, dirty, es, k).At(t))
    decreases k
  {
    hide Run, Looking, StepOf, Inv, Owned;
    BeforeNext(c, dirty, es, k - 1);
    if k == i + 1 {
      CallBegins(c, Before(c, dirty, es, i), t, x);
    } else {
      LookingRun(c, dirty, es, i, j, t, x, k - 1);
      LookingStep(c, Before(c, dirty, es, k - 1), es[k - 1], t, x);
      InvRun(c, dirty, es[..k - 1]);
      InvOwned(c, Before(c, dirty, es, k - 1));
      RecordEnds(c, Before(c, dirty, es, k - 1), t);
    }
  }

  lemma CallBegins(c: Config, s: State, t: nat, x: nat)
    requires c.Valid() && x < c.slotCount && s.At(t).Idle?
    ensures Looking(c, x, Apply(c, s, StartAlloc(t)).At(t))
  {
  }

  /** Recording the slot ends the call with a new buffer on it. */
  lemma RecordEnds(c: Config, s: State, t: nat)
    requires c.Valid() && Owned(c, s)
    ensures s.At(t).RecordAlloc? ==> Apply(c, s, Step(t)).At(t).Idle? && Apply(c, s, Step(t)).live != s.live
  {
    hide Owned;
    FreshHandle(c, s);
    if s.At(t).RecordAlloc? { assert s.nextHandle in Apply(c, s, Step(t)).live; }
  }

  /** Over any interleaving: a call that ends without a new buffer found every slot taken at
      some moment between its first step and its last. */
  lemma FailedCallFoundAllTaken(c: Config, dirty: set<nat>, es: seq<Event>, i: nat, j: nat, t: nat, x: nat)
    requires c.Valid() && x < c.slotCount && IsCall(c, dirty, es, i, j, t)
    requires Before(c, dirty, es, j + 1).live == Before(c, dirty, es, j).live
    ensures exists n :: i < n <= j && x !in Before(c, dirty, es, n).free
  {
    hide Run, Looking, StepOf, Inv, Owned;
    if forall n :: i < n <= j ==> x in Before(c, dirty, es, n).free {
      var s := Before(c, dirty, es, j);
      LookingRun(c, dirty, es, i, j, t, x, j);
      LookingStep(c, s, es[j], t, x);
      BeforeNext(c, dirty, es, j);
      LookingNotIdle(c, x, Apply(c, s, es[j]).At(t));
      InvRun(c, dirty, es[..j]);
      InvOwned(c, s);
      RecordEnds(c, s, t);
    }
  }

  lemma InvOwned(c: Config, s: State)
    requires Inv(c, s)
    ensures Owned(c, s)
  {
  }

  lemma LookingNotIdle(c: Config, x: nat, pc: Pc)
    requires c.Valid() && x < c.slotCount
    ensures Looking(c, x, pc) ==> !pc.Idle?
  {
  }

  // ----- a call that nobody interrupts

  /** `n` steps of thread `t` alone. */
  ghost function Solo(c: Config, s: State, t: nat, n: nat): State
    requires c.Valid()
    decreases n
  {
    if n == 0 then s else Solo(c, Apply(c, s, Step(t)), t, n - 1)
  }

  lemma {:induction false} SoloJoin(c: Config, s: State, t: nat, m: nat, n: nat)
    requires c.Valid()
    ensures Solo(c, Solo(c, s, t, m), t, n) == Solo(c, s, t, m + n)
    decreases m
  {
    hide Apply;
    if m > 0 { SoloJoin(c, Apply(c, s, Step(t)), t, m - 1, n); }
  }

  lemma SoloOne(c: Config, s: State, t: nat)
    requires c.Valid()
    ensures Solo(c, s, t, 1) == Apply(c, s, Step(t))
  {
    hide Apply;
    assert Solo(c, Apply(c, s, Step(t)), t, 0) == Apply(c, s, Step(t));
  }

  /** The words before distance `i` hold no free slot. */
  ghost predicate EmptyUpTo(c: Config, s: State, start: nat, i: nat)
    requires c.Valid()
  {
    && start < c.ScanWords()
    && forall x: nat :: x in s.free ==> x < c.slotCount && Ahead(c, x, start, i)
  }

  /** The scan ends at the slot a whole operation picks, or finds none exactly if none is free. */
  lemma {:induction false} SoloScan(c: Config, s: State, t: nat, start: nat, i: nat) returns (n: nat, pc: Pc)
    requires c.Valid() && s.At(t) == LoadWord(start, i) && i < c.ScanWords() && EmptyUpTo(c, s, start, i)
    ensures Solo(c, s, t, n) == s.(threads := s.threads[t := pc])
    ensures if s.free == {} then pc == Idle
            else pc.ClaimBit? && IsPick(c.bits, c.ScanWords(), start, s.free, pc.slot)
    decreases c.ScanWords() - i
  {
    hide Config.ScanWords, WordSlots, Least, Pow2, IsPick, EmptyUpTo;
    var slots := WordSlots(c, s, (start + i) % c.ScanWords());
    var s1 := Apply(c, s, Step(t));
    SoloOne(c, s, t);
    if slots != {} {
      n, pc := 1, ClaimBit(start, i, Least(slots));
      PickHere(c, s, start, i);
    } else if i + 1 < c.ScanWords() {
      NextEmpty(c, s, s1, start, i);
      n, pc := SoloScan(c, s1, t, start, i + 1);
      n := n + 1;
    } else {
      n, pc := 1, Idle;
      NoneFree(c, s, start, i);
    }
  }

  lemma PickHere(c: Config, s: State, start: nat, i: nat)
    requires c.Valid() && i < c.ScanWords() && EmptyUpTo(c, s, start, i)
    requires WordSlots(c, s, (start + i) % c.ScanWords()) != {}
    ensures IsPick(c.bits, c.ScanWords(), start, s.free, Least(WordSlots(c, s, (start + i) % c.ScanWords())))
    ensures s.free != {}
  {
    hide Config.ScanWords, WordOf, Least;
    var n, w := c.ScanWords(), (start + i) % c.ScanWords();
    var h := Least(WordSlots(c, s, w));
    ScanReaches(n, start, w, i);
    forall x | x in s.free && WordOf(c.bits, x) < n
      ensures || ScanDistance(n, start, WordOf(c.bits, h)) < ScanDistance(n, start, WordOf(c.bits, x))
              || (WordOf(c.bits, h) == WordOf(c.bits, x) && h <= x)
    {
      ScanReaches(n, start, WordOf(c.bits, x), i);
    }
  }

  lemma NextEmpty(c: Config, s: State, s1: State, start: nat, i: nat)
    requires c.Valid() && i + 1 < c.ScanWords() && EmptyUpTo(c, s, start, i) && s1.free == s.free
    requires WordSlots(c, s, (start + i) % c.ScanWords()) == {}
    ensures EmptyUpTo(c, s1, start, i + 1)
  {
    hide Config.ScanWords, WordSlots;
    forall x: nat | x in s1.free ensures x < c.slotCount && Ahead(c, x, start, i + 1) { LoadAhead(c, s, x, start, i); }
  }

  lemma NoneFree(c: Config, s: State, start: nat, i: nat)
    requires c.Valid() && i + 1 == c.ScanWords() && EmptyUpTo(c, s, start, i)
    requires WordSlots(c, s, (start + i) % c.ScanWords()) == {}
    ensures s.free == {}
  {
    hide Config.ScanWords, WordSlots;
    if x: nat :| x in s.free { LoadAhead(c, s, x, start, i); }
  }

  lemma FreeAhead(c: Config, s: State, start: nat)
    requires c.Valid() && Owned(c, s) && start < c.ScanWords()
    ensures EmptyUpTo(c, s, start, 0)
  {
    hide Config.ScanWords;
    forall x: nat | x in s.free ensures x < c.slotCount && Ahead(c, x, start, 0) {
      assert Owns(s, Nobody, x);
      Starts(c, x, start);
    }
  }

  function Bumped(c: Config, s: State): nat
  {
    if c.slotCount == 0 then s.cursor else (s.cursor + 1) % Pow2(c.bits)
  }

  /** A call that nobody interrupts does what the whole operation does: it fails exactly if no
      slot is free, and otherwise hands out the nearest free slot in scan order from the
      cursor, zeroed under the policy unless its zeroed bit is set. The cursor moves by one. */
  lemma SoloAllocates(c: Config, s: State, t: nat) returns (n: nat, h: nat)
    requires c.Valid() && Owned(c, s) && s.At(t).Idle?
    ensures s.free != {} ==> IsPick(c.bits, c.ScanWords(), s.cursor % c.ScanWords(), s.free, h)
    ensures var s' := s.(cursor := Bumped(c, s), threads := s.threads[t := Idle]);
            Solo(c, Apply(c, s, StartAlloc(t)), t, n)
            == if s.free == {} then s'
               else s'.(free := s.free - {h}, live := s.live[s.nextHandle := h], nextHandle := s.nextHandle + 1,
                        bytesLive := s.bytesLive + c.capacity,
                        dirty := if c.zeroPolicy && h !in s.zeroed then s.dirty - {h} else s.dirty)
  {
    hide Config.ScanWords, Pow2, IsPick, Owned, EmptyUpTo, Apply, Solo;
    var s0 := Apply(c, s, StartAlloc(t));
    var s1 := SoloBump(c, s, t);
    n, h := 1, 0;
    if c.slotCount == 0 {
      NoSlots(c, s);
    } else {
      var start := s.cursor % c.ScanWords();
      FreeAhead(c, s, start);
      SameEmpty(c, s, s1, start);
      var m, pc := SoloScan(c, s1, t, start, 0);
      SoloJoin(c, s0, t, 1, m);
      n := 1 + m;
      if s.free != {} {
        h := pc.slot;
        PickIsFree(c, s, start, h);
        var k := SoloClaim(c, s1.(threads := s1.threads[t := pc]), t);
        SoloJoin(c, s0, t, n, k);
        n := n + k;
      }
    }
  }

  /** The first step moves the cursor. */
  lemma SoloBump(c: Config, s: State, t: nat) returns (s1: State)
    requires c.Valid() && s.At(t).Idle?
    ensures s1 == Solo(c, Apply(c, s, StartAlloc(t)), t, 1)
    ensures var pc := if c.slotCount == 0 then Idle else LoadWord(s.cursor % c.ScanWords(), 0);
            s1 == s.(cursor := Bumped(c, s), threads := s.threads[t := pc])
  {
    hide Config.ScanWords, Pow2, WordSlots, Least;
    var s0 := Apply(c, s, StartAlloc(t));
    s1 := Apply(c, s0, Step(t));
    SoloOne(c, s0, t);
  }

  lemma NoSlots(c: Config, s: State)
    requires Owned(c, s) && c.slotCount == 0
    ensures s.free == {}
  {
    assert forall x: nat :: x in s.free ==> Owns(s, Nobody, x);
  }

  lemma SameEmpty(c: Config, s: State, s1: State, start: nat)
    requires c.Valid() && EmptyUpTo(c, s, start, 0) && s1.free == s.free
    ensures EmptyUpTo(c, s1, start, 0)
  {
  }

  lemma PickIsFree(c: Config, s: State, start: nat, h: nat)
    requires c.Valid() && start < c.ScanWords() && IsPick(c.bits, c.ScanWords(), start, s.free, h)
    ensures h in s.free
  {
  }

  lemma SoloClaim(c: Config, s: State, t: nat) returns (n: nat)
    requires c.Valid() && s.At(t).ClaimBit? && s.At(t).slot in s.free
    ensures var h := s.At(t).slot;
            Solo(c, s, t, n)
            == s.(threads := s.threads[t := Idle], free := s.free - {h},
                  live := s.live[s.nextHandle := h], nextHandle := s.nextHandle + 1,
                  bytesLive := s.bytesLive + c.capacity,
                  dirty := if c.zeroPolicy && h !in s.zeroed then s.dirty - {h} else s.dirty)
  {
    hide Config.ScanWords, WordSlots, Least, Pow2;
    var s1 := Apply(c, s, Step(t));
    SoloOne(c, s, t);
    n := 1;
    if c.zeroPolicy {
      var s2 := Apply(c, s1, Step(t));
      SoloOne(c, s1, t);
      SoloJoin(c, s, t, 1, 1);
      n, s1 := 2, s2;
      if s1.At(t).Zeroing? {
        s2 := Apply(c, s1, Step(t));
        SoloOne(c, s1, t);
        SoloJoin(c, s, t, 2, 1);
        n, s1 := 3, s2;
      }
    }
    SoloOne(c, s1, t);
    SoloJoin(c, s, t, n, 1);
    n := n + 1;
  }

  /** A return that nobody interrupts frees its slot and takes it off the live bytes; under the
      policy the slot is scrubbed and marked. */
  lemma SoloReturns(c: Config, s: State, t: nat, handle: nat) returns (n: nat)
    requires c.Valid() && Owned(c, s) && s.At(t).Idle? && handle in s.live
    ensures var h := s.live[handle];
            Solo(c, Apply(c, s, StartRelease(t, handle)), t, n)
            == s.(threads := s.threads[t := Idle], live := s.live - {handle}, free := s.free + {h},
                  bytesLive := s.bytesLive - c.capacity,
                  dirty := if c.zeroPolicy then s.dirty - {h} else s.dirty,
                  zeroed := if c.zeroPolicy then s.zeroed + {h} else s.zeroed)
  {
    hide Config.ScanWords, WordSlots, Least, Pow2, Owned;
    var h, s0 := s.live[handle], Apply(c, s, StartRelease(t, handle));
    var s1 := s0;
    n := 0;
    if c.zeroPolicy {
      s1 := Apply(c, s0, Step(t));
      SoloOne(c, s0, t);
      SoloOne(c, s1, t);
      SoloJoin(c, s0, t, 1, 1);
      n, s1 := 2, Apply(c, s1, Step(t));
    }
    NotFreeYet(c, s, handle);
    SoloOne(c, s1, t);
    SoloJoin(c, s0, t, n, 1);
    n, s1 := n + 1, Apply(c, s1, Step(t));
    SoloOne(c, s1, t);
    SoloJoin(c, s0, t, n, 1);
    n := n + 1;
  }

  lemma NotFreeYet(c: Config, s: State, handle: nat)
    requires Owned(c, s) && handle in s.live
    ensures s.live[handle] !in s.free
  {
    SoleOwner(c, s, Nobody, Buffer(handle), s.live[handle]);
  }
}
