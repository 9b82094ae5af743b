/** The fixed arena as any number of threads interleaving atomic steps (src/arena.rs:442-475,
    src/allocation.rs:22-39, src/bitmap.rs:90-117, src/metrics.rs:74-102).

    A step is one load, `fetch_and`, `fetch_or`, `fetch_add` or `fetch_sub`, or the zeroing of
    one slot by its owner. A slot counts as dirty when it may hold a byte that is not zero.
    A return frees its slot before it subtracts the slot from the live bytes.
 */
module FixedInterleaving {
  import opened Words
  import opened Bitmaps

  datatype Config = Config(bits: nat, slotCount: nat, capacity: nat, zeroPolicy: bool) {
    ghost predicate Valid() { bits > 0 }

    function ScanWords(): (n: nat)
      requires Valid()
      ensures n > 0
    {
      var words := (slotCount + bits - 1) / bits;
      Pow2(Log2Ceil(if words >= 1 then words else 1))
    }
  }

  /** Where a thread is; `h` is a slot it holds. */
  datatype Pc =
    | Idle
      // allocate
    | Bump
    | LoadWord(start: nat, i: nat)
    | ClaimBit(start: nat, i: nat, slot: nat)
    | ZeroCheck(h: nat)
    | Zeroing(h: nat)
    | RecordAlloc(h: nat)
      // release
    | Scrub(h: nat)
    | MarkZeroed(h: nat)
    | FreeSlot(h: nat)
    | RecordFree

  datatype State = State(
    free: set<nat>,
    cursor: nat,
    zeroed: set<nat>,
    dirty: set<nat>,
    bytesLive: int,
    live: map<nat, nat>,      // outstanding buffers and their slots
    nextHandle: nat,
    threads: map<nat, Pc>,
    doubleFree: bool          // the assertion of `AtomicBitmap::free` has fired
  ) {
    function At(t: nat): Pc { if t in threads then threads[t] else Idle }
  }

  datatype Event = StartAlloc(t: nat) | StartRelease(t: nat, handle: nat) | Write(handle: nat) | Step(t: nat)

  ghost function WordSlots(c: Config, s: State, w: nat): (r: set<nat>)
    requires c.Valid()
    ensures forall x :: x in r <==> x in s.free && WordOf(c.bits, x) == w
  {
    set x | x in s.free && WordOf(c.bits, x) == w
  }

  function AfterClaim(c: Config, h: nat): Pc { if c.zeroPolicy then ZeroCheck(h) else RecordAlloc(h) }

  /** One atomic step of a thread at `pc`: the shared state it leaves, and where it goes. */
  ghost function StepOf(c: Config, s: State, pc: Pc): (State, Pc)
    requires c.Valid()
  {
    match pc
    case Idle => (s, Idle)
    case Bump =>
      if c.slotCount == 0 then (s, Idle)
      else (s.(cursor := (s.cursor + 1) % Pow2(c.bits)), LoadWord(s.cursor % c.ScanWords(), 0))
    case LoadWord(start, i) =>
      var slots := WordSlots(c, s, (start + i) % c.ScanWords());
      (s, if slots != {} then ClaimBit(start, i, Least(slots))
          else if i + 1 < c.ScanWords() then LoadWord(start, i + 1) else Idle)
    case ClaimBit(start, i, slot) =>
      (s.(free := s.free - {slot}), if slot in s.free then AfterClaim(c, slot) else LoadWord(start, i))
    case ZeroCheck(h) => (s, if h in s.zeroed then RecordAlloc(h) else Zeroing(h))
    case Zeroing(h) => (s.(dirty := s.dirty - {h}), RecordAlloc(h))
    case RecordAlloc(h) =>
      (s.(bytesLive := s.bytesLive + c.capacity, live := s.live[s.nextHandle := h], nextHandle := s.nextHandle + 1),
       Idle)
    case Scrub(h) => (s.(dirty := s.dirty - {h}), MarkZeroed(h))
    case MarkZeroed(h) => (s.(zeroed := s.zeroed + {h}), FreeSlot(h))
    case FreeSlot(h) => (s.(free := s.free + {h}, doubleFree := s.doubleFree || h in s.free), RecordFree)
    case RecordFree => (s.(bytesLive := s.bytesLive - c.capacity), Idle)
  }

  ghost function Apply(c: Config, s: State, e: Event): State
    requires c.Valid()
  {
    match e
    case StartAlloc(t) => if s.At(t).Idle? then s.(threads := s.threads[t := Bump]) else s
    case StartRelease(t, handle) =>
      if s.At(t).Idle? && handle in s.live
      then s.(live := s.live - {handle},
              threads := s.threads[t := if c.zeroPolicy then Scrub(s.live[handle]) else FreeSlot(s.live[handle])])
      else s
    case Write(handle) => if handle in s.live then s.(dirty := s.dirty + {s.live[handle]}) else s
    case Step(t) =>
      var (s', pc) := StepOf(c, s, s.At(t));
      s'.(threads := s.threads[t := pc])
  }

  ghost function Run(c: Config, s: State, es: seq<Event>): State
    requires c.Valid()
  {
    if es == [] then s else Apply(c, Run(c, s, es[..|es| - 1]), es[|es| - 1])
  }

  ghost function Init(c: Config, dirty: set<nat>): State
  {
    State(AllSlots(c.slotCount), 0, {}, dirty, 0, map[], 0, map[], false)
  }

  // ----- owners

  datatype Owner = Nobody | Buffer(handle: nat) | Thread(t: nat)

  function Holding(pc: Pc): Option<nat>
  {
    match pc
    case ZeroCheck(h) => Some(h)
    case Zeroing(h) => Some(h)
    case RecordAlloc(h) => Some(h)
    case Scrub(h) => Some(h)
    case MarkZeroed(h) => Some(h)
    case FreeSlot(h) => Some(h)
    case _ => None
  }

  predicate Owns(s: State, p: Owner, x: nat)
  {
    match p
    case Nobody => x in s.free
    case Buffer(handle) => handle in s.live && s.live[handle] == x
    case Thread(t) => Holding(s.At(t)) == Some(x)
  }

  /** Every slot of the arena has exactly one owner: the bitmap, a buffer or a thread. */
  ghost predicate Owned(c: Config, s: State)
  {
    && (forall p, x: nat :: Owns(s, p, x) ==> x < c.slotCount)
    && (forall p, q, x: nat :: Owns(s, p, x) && Owns(s, q, x) ==> p == q)
    && (forall x: nat :: x < c.slotCount ==> HasOwner(s, x))
    && (forall handle :: handle in s.live ==> handle < s.nextHandle)
  }

  ghost predicate HasOwner(s: State, x: nat)
  {
    exists p :: Owns(s, p, x)
  }

  /** Slot `h` goes from `p` to `q`, and nothing else changes hands. */
  ghost predicate Handed(s: State, s': State, p: Owner, q: Owner, h: nat)
  {
    && Owns(s, p, h)
    && forall r, x: nat :: Owns(s', r, x) <==> if x == h then r == q else Owns(s, r, x)
  }

  lemma HandedOwned(c: Config, s: State, s': State, p: Owner, q: Owner, h: nat)
    requires Owned(c, s) && Handed(s, s', p, q, h)
    requires forall handle :: handle in s'.live ==> handle < s'.nextHandle
    ensures Owned(c, s')
  {
    hide Owns;
    forall x: nat | x < c.slotCount ensures HasOwner(s', x) {
      assert HasOwner(s, x);
      var r :| Owns(s, r, x);
      var r' := if x == h then q else r;
      assert Owns(s', r', x);
    }
  }

  lemma OwnersSame(c: Config, s: State, s': State)
    requires Owned(c, s) && s'.free == s.free && s'.live == s.live && s'.nextHandle == s.nextHandle
    requires forall t: nat :: Holding(s'.At(t)) == Holding(s.At(t))
    ensures Owned(c, s')
  {
    forall p, x: nat ensures Owns(s', p, x) <==> Owns(s, p, x) {}
    forall x: nat | x < c.slotCount ensures HasOwner(s', x) {
      assert HasOwner(s, x);
      var r :| Owns(s, r, x);
      assert Owns(s', r, x);
    }
  }

  // ----- the threads inside an operation

  predicate Allocating(pc: Pc) { pc.ZeroCheck? || pc.Zeroing? || pc.RecordAlloc? }

  predicate Returning(pc: Pc) { pc.Scrub? || pc.MarkZeroed? || pc.FreeSlot? }

  /** Threads that hold a slot they are about to hand out, threads that hold one they are about
      to free, and threads that have freed theirs but not yet subtracted it. */
  ghost function Handing(s: State): set<nat> { set t | t in s.threads && Allocating(s.threads[t]) }

  ghost function Giving(s: State): set<nat> { set t | t in s.threads && Returning(s.threads[t]) }

  ghost function Late(s: State): set<nat> { set t | t in s.threads && s.threads[t].RecordFree? }

  /** One thread moves: the three sets change by that thread alone. */
  lemma ThreadMoves(s: State, s': State, t: nat, pc: Pc)
    requires s'.threads == s.threads[t := pc]
    ensures |Handing(s')| + One(Allocating(s.At(t))) == |Handing(s)| + One(Allocating(pc))
    ensures |Giving(s')| + One(Returning(s.At(t))) == |Giving(s)| + One(Returning(pc))
    ensures |Late(s')| + One(s.At(t).RecordFree?) == |Late(s)| + One(pc.RecordFree?)
  {
    OneMember(Handing(s), Handing(s'), t);
    OneMember(Giving(s), Giving(s'), t);
    OneMember(Late(s), Late(s'), t);
  }

  /** The live bytes are those of the buffers out and of the returns not yet subtracted, and
      every slot is free, out, or held by one thread. */
  ghost predicate Balanced(c: Config, s: State)
  {
    && s.bytesLive == c.capacity * (|s.live.Keys| + |Giving(s)| + |Late(s)|)
    && |s.free| + |s.live.Keys| + |Handing(s)| + |Giving(s)| == c.slotCount
  }

  // ----- the zero policy

  /** A slot that may hold data: it is out, or about to be scrubbed. */
  ghost predicate Exposed(s: State, x: nat)
  {
    (exists handle :: handle in s.live && s.live[handle] == x) || (exists t: nat :: ScrubbingAt(s, t, x))
  }

  predicate ScrubbingAt(s: State, t: nat, x: nat) { s.At(t) == Scrub(x) }

  ghost predicate PcClean(c: Config, s: State, pc: Pc)
  {
    c.zeroPolicy && (pc.RecordAlloc? || pc.MarkZeroed?) ==> pc.h !in s.dirty
  }

  ghost predicate ZeroPolicy(c: Config, s: State)
  {
    && (forall x: nat :: x in s.zeroed && x in s.dirty ==> Exposed(s, x))
    && (forall t: nat :: PcClean(c, s, s.At(t)))
  }

  /** Without the policy nothing is ever marked zeroed. */
  ghost predicate PolicyOnly(c: Config, s: State)
  {
    && (!c.zeroPolicy ==> s.zeroed == {})
    && forall t: nat :: PcPolicy(c, s.At(t))
  }

  predicate PcPolicy(c: Config, pc: Pc)
  {
    (pc.ZeroCheck? || pc.Zeroing? || pc.Scrub? || pc.MarkZeroed? ==> c.zeroPolicy)
  }

  ghost predicate Inv(c: Config, s: State)
  {
    Owned(c, s) && Balanced(c, s) && ZeroPolicy(c, s) && PolicyOnly(c, s) && !s.doubleFree
  }

  // ----- every atomic step keeps the invariant

  lemma OthersStay(c: Config, s: State, e: Event, t: nat)
    requires c.Valid() && !(!e.Write? && e.t == t)
    ensures Apply(c, s, e).At(t) == s.At(t)
  {
    hide StepOf;
  }

  lemma OwnedStep(c: Config, s: State, e: Event)
    requires c.Valid() && Owned(c, s)
    ensures Owned(c, Apply(c, s, e)) && Apply(c, s, e).doubleFree == s.doubleFree
  {
    hide Owned, StepOf, Owns;
    var s' := Apply(c, s, e);
    match e {
      case StartAlloc(t) => OwnersSameBy(c, s, s', t);
      case Write(_) => OwnersSameBy(c, s, s', 0);
      case StartRelease(t, handle) =>
        if s.At(t).Idle? && handle in s.live { ReleaseHands(c, s, t, handle); } else { OwnersSameBy(c, s, s', t); }
      case Step(t) => StepOwned(c, s, t);
    }
  }

  lemma OwnersSameBy(c: Config, s: State, s': State, t: nat)
    requires Owned(c, s) && s'.free == s.free && s'.live == s.live && s'.nextHandle == s.nextHandle
    requires Holding(s'.At(t)) == Holding(s.At(t)) && forall u: nat :: u != t ==> s'.At(u) == s.At(u)
    ensures Owned(c, s')
  {
    hide Owned;
    forall u: nat ensures Holding(s'.At(u)) == Holding(s.At(u)) { if u != t { assert s'.At(u) == s.At(u); } }
    OwnersSame(c, s, s');
  }

  lemma SoleOwner(c: Config, s: State, p: Owner, q: Owner, x: nat)
    requires Owned(c, s)
    ensures Owns(s, p, x) && Owns(s, q, x) ==> p == q
  {
  }

  lemma ReleaseHands(c: Config, s: State, t: nat, handle: nat)
    requires c.Valid() && Owned(c, s) && s.At(t).Idle? && handle in s.live
    ensures Owned(c, Apply(c, s, StartRelease(t, handle)))
  {
    var s', h := Apply(c, s, StartRelease(t, handle)), s.live[handle];
    forall r, x: nat ensures Owns(s', r, x) <==> if x == h then r == Thread(t) else Owns(s, r, x) {
      SoleOwner(c, s, Buffer(handle), r, h);
      if r.Thread? && r.t != t { assert s'.At(r.t) == s.At(r.t); }
    }
    assert Owns(s, Buffer(handle), h);
    HandedOwned(c, s, s', Buffer(handle), Thread(t), h);
  }

  lemma StepOwned(c: Config, s: State, t: nat)
    requires c.Valid() && Owned(c, s)
    ensures Owned(c, Apply(c, s, Step(t))) && Apply(c, s, Step(t)).doubleFree == s.doubleFree
  {
    hide Owned, Owns, WordSlots, Pow2, Config.ScanWords;
    var pc := s.At(t);
    if pc.ClaimBit? && pc.slot in s.free {
      ClaimHands(c, s, t);
    } else if pc.RecordAlloc? {
      RecordHands(c, s, t);
    } else if pc.FreeSlot? {
      FreeHands(c, s, t);
    } else {
      assert pc.ClaimBit? ==> s.free - {pc.slot} == s.free;
      OwnersSameBy(c, s, Apply(c, s, Step(t)), t);
    }
  }

  lemma ClaimHands(c: Config, s: State, t: nat)
    requires c.Valid() && Owned(c, s) && s.At(t).ClaimBit? && s.At(t).slot in s.free
    ensures Owned(c, Apply(c, s, Step(t)))
  {
    var s', h := Apply(c, s, Step(t)), s.At(t).slot;
    assert Owns(s, Nobody, h);
    forall r, x: nat ensures Owns(s', r, x) <==> if x == h then r == Thread(t) else Owns(s, r, x) {
      SoleOwner(c, s, Nobody, r, h);
      if r.Thread? && r.t != t { assert s'.At(r.t) == s.At(r.t); }
    }
    HandedOwned(c, s, s', Nobody, Thread(t), h);
  }

  lemma RecordHands(c: Config, s: State, t: nat)
    requires c.Valid() && Owned(c, s) && s.At(t).RecordAlloc?
    ensures Owned(c, Apply(c, s, Step(t)))
  {
    var s', h := Apply(c, s, Step(t)), s.At(t).h;
    assert Owns(s, Thread(t), h);
    forall r, x: nat ensures Owns(s', r, x) <==> if x == h then r == Buffer(s.nextHandle) else Owns(s, r, x) {
      SoleOwner(c, s, Thread(t), r, h);
      if r.Thread? && r.t != t { assert s'.At(r.t) == s.At(r.t); }
    }
    HandedOwned(c, s, s', Thread(t), Buffer(s.nextHandle), h);
  }

  lemma FreeHands(c: Config, s: State, t: nat)
    requires c.Valid() && Owned(c, s) && s.At(t).FreeSlot?
    ensures Owned(c, Apply(c, s, Step(t))) && Apply(c, s, Step(t)).doubleFree == s.doubleFree
  {
    var s', h := Apply(c, s, Step(t)), s.At(t).h;
    assert Owns(s, Thread(t), h);
    assert !Owns(s, Nobody, h);
    forall r, x: nat ensures Owns(s', r, x) <==> if x == h then r == Nobody else Owns(s, r, x) {
      SoleOwner(c, s, Thread(t), r, h);
      if r.Thread? && r.t != t { assert s'.At(r.t) == s.At(r.t); }
    }
    HandedOwned(c, s, s', Thread(t), Nobody, h);
  }

  // ----- live bytes

  lemma BalancedStep(c: Config, s: State, e: Event)
    requires c.Valid() && Owned(c, s) && Balanced(c, s)
    ensures Balanced(c, Apply(c, s, e))
  {
    hide Owned, StepOf, Handing, Giving, Late;
    var s' := Apply(c, s, e);
    match e {
      case StartAlloc(t) => if s' != s { ThreadMoves(s, s', t, Bump); }
      case Write(_) => SameThreads(s, s');
      case StartRelease(t, handle) => if s' != s { ReleaseBalances(c, s, t, handle); }
      case Step(t) => StepBalances(c, s, t);
    }
  }

  lemma SameThreads(s: State, s': State)
    requires s'.threads == s.threads
    ensures Handing(s') == Handing(s) && Giving(s') == Giving(s) && Late(s') == Late(s)
  {
  }

  lemma ReleaseBalances(c: Config, s: State, t: nat, handle: nat)
    requires c.Valid() && Balanced(c, s) && s.At(t).Idle? && handle in s.live
    ensures Balanced(c, Apply(c, s, StartRelease(t, handle)))
  {
    hide Handing, Giving, Late;
    var s' := Apply(c, s, StartRelease(t, handle));
    ThreadMoves(s, s', t, if c.zeroPolicy then Scrub(s.live[handle]) else FreeSlot(s.live[handle]));
    assert s'.live.Keys == s.live.Keys - {handle};
    OneMember(s.live.Keys, s'.live.Keys, handle);
  }

  lemma StepBalances(c: Config, s: State, t: nat)
    requires c.Valid() && Owned(c, s) && Balanced(c, s)
    ensures Balanced(c, Apply(c, s, Step(t)))
  {
    hide Owned, Balanced, StepOf;
    var pc := s.At(t);
    if pc.RecordAlloc? || pc.RecordFree? {
      RecordBalances(c, s, t);
    } else {
      MoveBalances(c, s, t);
    }
  }

  lemma MoveBalances(c: Config, s: State, t: nat)
    requires c.Valid() && Owned(c, s) && Balanced(c, s) && !s.At(t).RecordAlloc? && !s.At(t).RecordFree?
    ensures Balanced(c, Apply(c, s, Step(t)))
  {
    hide Owned, Handing, Giving, Late, Balanced, StepOf;
    var s', pc := Apply(c, s, Step(t)), s.At(t);
    var next := StepOf(c, s, pc).1;
    ThreadMoves(s, s', t, next);
    MoveCounts(c, s, t);
    StillBalanced(c, s, s');
  }

  /** A step that records nothing moves a slot between the bitmap and its thread, or none. */
  lemma MoveCounts(c: Config, s: State, t: nat)
    requires c.Valid() && Owned(c, s) && !s.At(t).RecordAlloc? && !s.At(t).RecordFree?
    ensures var s', pc, next := Apply(c, s, Step(t)), s.At(t), StepOf(c, s, s.At(t)).1;
            && s'.bytesLive == s.bytesLive && s'.live == s.live && s'.threads == s.threads[t := next]
            && One(Returning(next)) + One(next.RecordFree?) == One(Returning(pc)) + One(pc.RecordFree?)
            && |s'.free| + One(Allocating(next)) + One(Returning(next))
               == |s.free| + One(Allocating(pc)) + One(Returning(pc))
  {
    hide Owned, WordSlots, Pow2, Config.ScanWords, Least, Returning, Allocating;
    var pc, next := s.At(t), StepOf(c, s, s.At(t)).1;
    if pc.ClaimBit? {
      OneMember(s.free, s.free - {pc.slot}, pc.slot);
    } else if pc.FreeSlot? {
      NotFree(c, s, t);
      OneMember(s.free, s.free + {pc.h}, pc.h);
    } else {
      SamePhase(c, s, pc);
    }
    Phases(pc);
    Phases(next);
  }

  /** Which of the counted phases a program counter is in. */
  lemma Phases(pc: Pc)
    ensures Allocating(pc) <==> pc.ZeroCheck? || pc.Zeroing? || pc.RecordAlloc?
    ensures Returning(pc) <==> pc.Scrub? || pc.MarkZeroed? || pc.FreeSlot?
  {
  }

  lemma SamePhase(c: Config, s: State, pc: Pc)
    requires c.Valid() && !pc.ClaimBit? && !pc.FreeSlot? && !pc.RecordAlloc? && !pc.RecordFree?
    ensures var (s', next) := StepOf(c, s, pc);
            && s'.free == s.free && s'.live == s.live && s'.bytesLive == s.bytesLive
            && Allocating(next) == Allocating(pc) && Returning(next) == Returning(pc) && !next.RecordFree?
  {
    hide WordSlots, Pow2, Config.ScanWords, Least;
  }

  lemma StillBalanced(c: Config, s: State, s': State)
    requires Balanced(c, s) && s'.bytesLive == s.bytesLive && s'.live == s.live
    requires |Giving(s')| + |Late(s')| == |Giving(s)| + |Late(s)|
    requires |s'.free| + |Handing(s')| + |Giving(s')| == |s.free| + |Handing(s)| + |Giving(s)|
    ensures Balanced(c, s')
  {
    hide Handing, Giving, Late;
    assert |s'.live.Keys| + |Giving(s')| + |Late(s')| == |s.live.Keys| + |Giving(s)| + |Late(s)|;
  }

  lemma OneMoreBlock(p: nat, n: nat)
    ensures p * (n + 1) == p * n + p
  {
    Distribute(p, n, 1);
  }

  lemma RecordBalances(c: Config, s: State, t: nat)
    requires c.Valid() && Owned(c, s) && Balanced(c, s) && (s.At(t).RecordAlloc? || s.At(t).RecordFree?)
    ensures Balanced(c, Apply(c, s, Step(t)))
  {
    hide Owned, Handing, Giving, Late, WordSlots, Pow2, Config.ScanWords, Least;
    var s', pc := Apply(c, s, Step(t)), s.At(t);
    ThreadMoves(s, s', t, Idle);
    if pc.RecordAlloc? {
      FreshHandle(c, s);
      assert s'.live.Keys == s.live.Keys + {s.nextHandle};
      OneMember(s.live.Keys, s'.live.Keys, s.nextHandle);
      OneMoreBlock(c.capacity, |s.live.Keys| + |Giving(s)| + |Late(s)|);
    } else {
      OneMoreBlock(c.capacity, |s'.live.Keys| + |Giving(s')| + |Late(s')|);
    }
  }

  lemma NotFree(c: Config, s: State, t: nat)
    requires Owned(c, s) && s.At(t).FreeSlot?
    ensures s.At(t).h !in s.free
  {
    assert Owns(s, Thread(t), s.At(t).h);
    assert s.At(t).h in s.free <==> Owns(s, Nobody, s.At(t).h);
  }

  lemma FreshHandle(c: Config, s: State)
    requires Owned(c, s)
    ensures s.nextHandle !in s.live
  {
  }

  // ----- the zero policy at every step

  /** A slot that a thread holds past its scrub, or before it is handed out, is not exposed. */
  lemma HeldNotExposed(c: Config, s: State, t: nat, x: nat)
    requires Owned(c, s) && Holding(s.At(t)) == Some(x) && !s.At(t).Scrub?
    ensures !Exposed(s, x) && forall handle :: handle in s.live ==> s.live[handle] != x
  {
    hide Owned;
    assert Owns(s, Thread(t), x);
    forall handle | handle in s.live ensures s.live[handle] != x { SoleOwner(c, s, Thread(t), Buffer(handle), x); }
    forall u: nat ensures !ScrubbingAt(s, u, x) { SoleOwner(c, s, Thread(t), Thread(u), x); }
  }

  lemma ExposedKept(c: Config, s: State, e: Event, x: nat)
    requires c.Valid() && Owned(c, s) && ZeroPolicy(c, s) && PolicyOnly(c, s)
    requires x in Apply(c, s, e).zeroed && x in Apply(c, s, e).dirty
    ensures Exposed(Apply(c, s, e), x)
  {
    hide Owned, WordSlots, Pow2, Config.ScanWords, Least;
    var s' := Apply(c, s, e);
    if e.Step? {
      assert PcPolicy(c, s.At(e.t));
      assert PcClean(c, s, s.At(e.t));
    }
    if e.Write? && e.handle in s.live && s.live[e.handle] == x {
      assert e.handle in s'.live && s'.live[e.handle] == x;
    } else {
      assert Exposed(s, x);
      StaysExposed(c, s, e, x);
    }
  }

  lemma StaysExposed(c: Config, s: State, e: Event, x: nat)
    requires c.Valid() && Owned(c, s) && PolicyOnly(c, s) && Exposed(s, x)
    requires x in Apply(c, s, e).zeroed && x in Apply(c, s, e).dirty
    ensures Exposed(Apply(c, s, e), x)
  {
    hide WordSlots, Pow2, Config.ScanWords, Least;
    var s' := Apply(c, s, e);
    if handle :| handle in s.live && s.live[handle] == x {
      if e.StartRelease? && e.handle == handle && s' != s {
        assert ScrubbingAt(s', e.t, x);
      } else {
        assert handle in s'.live && s'.live[handle] == x;
      }
    } else {
      var t: nat :| ScrubbingAt(s, t, x);
      assert ScrubbingAt(s', t, x);
    }
  }

  lemma CleanKept(c: Config, s: State, e: Event, t: nat)
    requires c.Valid() && Owned(c, s) && ZeroPolicy(c, s) && PolicyOnly(c, s)
    ensures PcClean(c, Apply(c, s, e), Apply(c, s, e).At(t)) && PcPolicy(c, Apply(c, s, e).At(t))
  {
    hide Owned, WordSlots, Pow2, Config.ScanWords, Least;
    var pc := s.At(t);
    assert PcClean(c, s, pc) && PcPolicy(c, pc);
    if pc.RecordAlloc? || pc.MarkZeroed? || pc.ZeroCheck? { HeldNotExposed(c, s, t, pc.h); }
    if e.Write? || e.t != t { OthersStay(c, s, e, t); }
  }

  lemma ZeroStep(c: Config, s: State, e: Event)
    requires c.Valid() && Owned(c, s) && ZeroPolicy(c, s) && PolicyOnly(c, s)
    ensures ZeroPolicy(c, Apply(c, s, e)) && PolicyOnly(c, Apply(c, s, e))
  {
    hide Owned, PcClean, PcPolicy, Exposed;
    var s' := Apply(c, s, e);
    forall x: nat | x in s'.zeroed && x in s'.dirty ensures Exposed(s', x) { ExposedKept(c, s, e, x); }
    forall t: nat ensures PcClean(c, s', s'.At(t)) && PcPolicy(c, s'.At(t)) { CleanKept(c, s, e, t); }
    MarksOnlyByPolicy(c, s, e);
  }

  lemma MarksOnlyByPolicy(c: Config, s: State, e: Event)
    requires c.Valid() && PolicyOnly(c, s)
    ensures !c.zeroPolicy ==> Apply(c, s, e).zeroed == {}
  {
    hide WordSlots, Pow2, Config.ScanWords, Least;
    if e.Step? { assert PcPolicy(c, s.At(e.t)); }
  }

  // ----- whole runs

  lemma InvInitial(c: Config, dirty: set<nat>)
    ensures Inv(c, Init(c, dirty))
  {
    hide Owned, Balanced, AllSlots;
    InitOwned(c, dirty);
    InitBalanced(c, dirty);
  }

  lemma InitOwned(c: Config, dirty: set<nat>)
    ensures Owned(c, Init(c, dirty))
  {
    hide AllSlots;
    var s := Init(c, dirty);
    forall p, x: nat ensures Owns(s, p, x) <==> p == Nobody && x < c.slotCount {}
    forall x: nat | x < c.slotCount ensures HasOwner(s, x) { assert Owns(s, Nobody, x); }
  }

  lemma InitBalanced(c: Config, dirty: set<nat>)
    ensures Balanced(c, Init(c, dirty))
  {
    hide AllSlots;
    var s := Init(c, dirty);
    assert Handing(s) == {} && Giving(s) == {} && Late(s) == {} && s.live.Keys == {};
    assert |s.live.Keys| + |Giving(s)| + |Late(s)| == 0;
  }

  lemma {:induction false} InvRun(c: Config, dirty: set<nat>, es: seq<Event>)
    requires c.Valid()
    ensures Inv(c, Run(c, Init(c, dirty), es))
  {
    hide Owned, Balanced, ZeroPolicy, PolicyOnly, Apply;
    if es == [] {
      InvInitial(c, dirty);
    } else {
      InvRun(c, dirty, es[..|es| - 1]);
      var s, e := Run(c, Init(c, dirty), es[..|es| - 1]), es[|es| - 1];
      OwnedStep(c, s, e);
      BalancedStep(c, s, e);
      ZeroStep(c, s, e);
    }
  }

  /** After any interleaving every slot has exactly one owner, whatever the slot count, and
      freeing never meets a slot that is free. */
  lemma RunOwners(c: Config, dirty: set<nat>, es: seq<Event>, p: Owner, q: Owner, x: nat)
    requires c.Valid()
    ensures var s := Run(c, Init(c, dirty), es);
            && (Owns(s, p, x) && Owns(s, q, x) ==> p == q) && (Owns(s, p, x) ==> x < c.slotCount)
            && (x < c.slotCount ==> exists r :: Owns(s, r, x)) && !s.doubleFree
  {
    InvRun(c, dirty, es);
    if x < c.slotCount { assert HasOwner(Run(c, Init(c, dirty), es), x); }
  }

  /** Under the zero policy every slot about to be handed out is all zero. */
  lemma RunHandsOutZeros(c: Config, dirty: set<nat>, es: seq<Event>, t: nat)
    requires c.Valid() && c.zeroPolicy
    ensures var s := Run(c, Init(c, dirty), es); s.At(t).RecordAlloc? ==> s.At(t).h !in s.dirty
  {
    InvRun(c, dirty, es);
    assert PcClean(c, Run(c, Init(c, dirty), es), Run(c, Init(c, dirty), es).At(t));
  }

  /** After any interleaving the live bytes are not negative, a pending subtraction finds what
      it subtracts, and they exceed the arena if and only if more threads have freed their slot
      without having subtracted it than there are slots free or about to be handed out. */
  lemma RunBytes(c: Config, dirty: set<nat>, es: seq<Event>, t: nat)
    requires c.Valid() && c.capacity > 0
    ensures var s := Run(c, Init(c, dirty), es);
            && 0 <= s.bytesLive && (s.At(t).RecordFree? ==> s.bytesLive >= c.capacity)
            && (s.bytesLive > c.capacity * c.slotCount <==> |Late(s)| > |s.free| + |Handing(s)|)
  {
    hide Inv, Run, Handing, Late;
    InvRun(c, dirty, es);
    var s := Run(c, Init(c, dirty), es);
    InvBalanced(c, s);
    BytesBounds(c, s, t);
  }

  lemma InvBalanced(c: Config, s: State)
    requires Inv(c, s)
    ensures Balanced(c, s)
  {
  }

  lemma BytesBounds(c: Config, s: State, t: nat)
    requires Balanced(c, s) && c.capacity > 0
    ensures 0 <= s.bytesLive && (s.At(t).RecordFree? ==> s.bytesLive >= c.capacity)
    ensures s.bytesLive > c.capacity * c.slotCount <==> |Late(s)| > |s.free| + |Handing(s)|
  {
    hide Handing, Giving, Late;
    var n := |s.live.Keys| + |Giving(s)| + |Late(s)|;
    LateCounts(s, t);
    Scaled(c.capacity, n, c.slotCount);
  }

  lemma LateCounts(s: State, t: nat)
    ensures s.At(t).RecordFree? ==> |Late(s)| >= 1
  {
    if s.At(t).RecordFree? { assert t in Late(s); }
  }

  lemma Scaled(p: nat, a: nat, b: nat)
    requires p > 0
    ensures 0 <= p * a && (p * a > p * b <==> a > b) && (a >= 1 ==> p * a >= p)
  {
    if a > b { Distribute(p, b, a - b); } else { Distribute(p, a, b - a); }
    if a >= 1 { Distribute(p, 1, a - 1); }
  }

  // ----- runs that stay within the arena

  /** An allocation is counted while some return has freed its slot and not yet subtracted it. */
  ghost predicate CountsDuringReturn(s: State, e: Event)
  {
    e.Step? && s.At(e.t).RecordAlloc? && Late(s) != {}
  }

  ghost predicate Within(s: State)
  {
    |Late(s)| <= |s.free| + |Handing(s)|
  }

  lemma WithinStep(c: Config, s: State, e: Event)
    requires c.Valid() && Inv(c, s) && Within(s) && !CountsDuringReturn(s, e)
    ensures Within(Apply(c, s, e))
  {
    hide Inv, Handing, Giving, Late, StepOf;
    var s' := Apply(c, s, e);
    match e {
      case StartAlloc(t) => if s' != s { ThreadMoves(s, s', t, Bump); }
      case Write(_) => SameThreads(s, s');
      case StartRelease(t, handle) => if s' != s { ThreadMoves(s, s', t, s'.At(t)); }
      case Step(t) => StepWithin(c, s, t);
    }
  }

  lemma StepWithin(c: Config, s: State, t: nat)
    requires c.Valid() && Inv(c, s) && Within(s) && !CountsDuringReturn(s, Step(t))
    ensures Within(Apply(c, s, Step(t)))
  {
    hide Handing, Giving, Owned, Balanced, ZeroPolicy, PolicyOnly, StepOf;
    var s', pc := Apply(c, s, Step(t)), s.At(t);
    var next := StepOf(c, s, pc).1;
    ThreadMoves(s, s', t, next);
    if pc.RecordAlloc? || pc.RecordFree? {
      RecordKeepsFree(c, s, t);
    } else {
      MoveCounts(c, s, t);
      Phases(pc);
      Phases(next);
    }
  }

  lemma RecordKeepsFree(c: Config, s: State, t: nat)
    requires c.Valid() && (s.At(t).RecordAlloc? || s.At(t).RecordFree?)
    ensures Apply(c, s, Step(t)).free == s.free && StepOf(c, s, s.At(t)).1 == Idle
  {
  }

  lemma {:induction false} WithinRun(c: Config, dirty: set<nat>, es: seq<Event>)
    requires c.Valid() && forall k :: 0 <= k < |es| ==> !CountsDuringReturn(Run(c, Init(c, dirty), es[..k]), es[k])
    ensures Within(Run(c, Init(c, dirty), es))
  {
    hide Inv, Apply, CountsDuringReturn, Within;
    if es == [] {
      InitWithin(c, dirty);
    } else {
      var init := es[..|es| - 1];
      forall k | 0 <= k < |init| ensures !CountsDuringReturn(Run(c, Init(c, dirty), init[..k]), init[k]) {
        assert init[..k] == es[..k];
      }
      WithinRun(c, dirty, init);
      InvRun(c, dirty, init);
      WithinStep(c, Run(c, Init(c, dirty), init), es[|es| - 1]);
    }
  }

  lemma InitWithin(c: Config, dirty: set<nat>)
    ensures Within(Init(c, dirty))
  {
    assert Late(Init(c, dirty)) == {};
  }

  /** Runs in which no allocation is counted between the free of a return and its subtraction
      never have more bytes live than the arena has. */
  lemma SeparateCountsFit(c: Config, dirty: set<nat>, es: seq<Event>)
    requires c.Valid() && c.capacity > 0
    requires forall k :: 0 <= k < |es| ==> !CountsDuringReturn(Run(c, Init(c, dirty), es[..k]), es[k])
    ensures Run(c, Init(c, dirty), es).bytesLive <= c.capacity * c.slotCount
  {
    hide Run, CountsDuringReturn, Handing, Late;
    WithinRun(c, dirty, es);
    RunBytes(c, dirty, es, 0);
  }

  // ----- a run that exceeds the arena

  lemma Advance(c: Config, s: State, es: seq<Event>, cur: State, e: Event) returns (es': seq<Event>, next: State)
    requires c.Valid() && cur == Run(c, s, es)
    ensures next == Run(c, s, es') && next == Apply(c, cur, e)
    ensures forall u: nat :: (e.Write? || u != e.t) ==> next.At(u) == cur.At(u)
  {
    hide StepOf;
    es', next := es + [e], Apply(c, cur, e);
    assert es'[..|es'| - 1] == es;
  }

  lemma OneWordScan(c: Config)
    requires c.Valid() && c.slotCount == 1
    ensures c.ScanWords() == 1
  {
    DivModUnique(1, 0, c.bits, c.bits);
  }

  lemma OnlySlot(c: Config, s: State)
    requires c.Valid() && s.free == {0}
    ensures WordSlots(c, s, 0) == {0} && WordSlots(c, s, 0) != {} && Least(WordSlots(c, s, 0)) == 0
  {
    DivModUnique(0, 0, c.bits, 0);
    assert WordSlots(c, s, 0) == {0};
  }

  /** A thread allocates the only slot with nobody in between. */
  lemma AllocateAlone(c: Config, s: State, es: seq<Event>, cur: State, t: nat) returns (es': seq<Event>, next: State)
    requires c.Valid() && c.slotCount == 1 && cur == Run(c, s, es) && cur.At(t) == Idle && cur.free == {0}
    ensures next == Run(c, s, es') && next.At(t) == Idle && (forall u: nat :: u != t ==> next.At(u) == cur.At(u))
    ensures next.bytesLive == cur.bytesLive + c.capacity
    ensures next.live == cur.live[cur.nextHandle := 0] && next.free == {}
  {
    hide Run, Pow2, Config.ScanWords, WordSlots, Least;
    OneWordScan(c);
    es', next := Advance(c, s, es, cur, StartAlloc(t));
    es', next := Advance(c, s, es', next, Step(t));
    assert next.At(t) == LoadWord(0, 0);
    OnlySlot(c, next);
    es', next := Advance(c, s, es', next, Step(t));
    assert next.At(t) == ClaimBit(0, 0, 0) && next.free == {0};
    es', next := Advance(c, s, es', next, Step(t));
    assert next.At(t) == AfterClaim(c, 0) && next.free == {};
    es', next := RecordAlone(c, s, es', next, t);
  }

  lemma RecordAlone(c: Config, s: State, es: seq<Event>, cur: State, t: nat) returns (es': seq<Event>, next: State)
    requires c.Valid() && cur == Run(c, s, es) && cur.At(t) == AfterClaim(c, 0)
    ensures next == Run(c, s, es') && next.At(t) == Idle && (forall u: nat :: u != t ==> next.At(u) == cur.At(u))
    ensures next.bytesLive == cur.bytesLive + c.capacity
    ensures next.live == cur.live[cur.nextHandle := 0] && next.free == cur.free
  {
    hide Run, Pow2, Config.ScanWords, WordSlots, Least;
    es', next := es, cur;
    if c.zeroPolicy { es', next := Advance(c, s, es', next, Step(t)); }
    if next.At(t).Zeroing? { es', next := Advance(c, s, es', next, Step(t)); }
    assert next.At(t) == RecordAlloc(0);
    es', next := Advance(c, s, es', next, Step(t));
  }

  /** A return up to the point where the slot is free and not yet subtracted. */
  lemma FreeAlone(c: Config, s: State, es: seq<Event>, cur: State, t: nat, handle: nat)
    returns (es': seq<Event>, next: State)
    requires c.Valid() && cur == Run(c, s, es) && cur.At(t) == Idle
    requires handle in cur.live && cur.live[handle] == 0 && cur.free == {}
    ensures next == Run(c, s, es') && next.At(t) == RecordFree && (forall u: nat :: u != t ==> next.At(u) == cur.At(u))
    ensures next.bytesLive == cur.bytesLive && next.free == {0}
  {
    hide Run, Pow2, Config.ScanWords, WordSlots, Least;
    es', next := Advance(c, s, es, cur, StartRelease(t, handle));
    if c.zeroPolicy {
      es', next := Advance(c, s, es', next, Step(t));
      es', next := Advance(c, s, es', next, Step(t));
    }
    assert next.At(t) == FreeSlot(0);
    es', next := Advance(c, s, es', next, Step(t));
  }

  /** In an arena of one slot, under either policy, some run has twice its bytes live: one
      thread has freed the slot and not yet subtracted it when another records it. */
  lemma BytesCanExceed(c: Config, dirty: set<nat>) returns (es: seq<Event>)
    requires c.Valid() && c.slotCount == 1
    ensures Run(c, Init(c, dirty), es).bytesLive == 2 * c.capacity
  {
    hide Run, StepOf;
    var init := Init(c, dirty);
    var cur := init;
    EmptyRun(c, init);
    assert init.free == {0};
    es, cur := AllocateAlone(c, init, [], init, 1);
    es, cur := FreeAlone(c, init, es, cur, 1, 0);
    es, cur := AllocateAlone(c, init, es, cur, 2);
  }

  lemma EmptyRun(c: Config, s: State)
    requires c.Valid()
    ensures Run(c, s, []) == s
  {
  }
}
