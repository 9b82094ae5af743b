/** The buddy allocator as any number of threads interleaving atomic steps.

    A step is one `fetch_and`, `fetch_or`, `fetch_add`, `fetch_sub` or load of
    src/buddy.rs, src/bitmap.rs, src/allocation.rs and src/metrics.rs, with the local
    control flow that follows it. A word of a bitmap is the set of its slots. The range
    operations on the zeroed bitmap and the scrub of a block go one minimum block at a
    time, which is finer than the word operations of the source and so allows every
    interleaving of those.

    The bitmaps here are the sets that module `Bitmaps` shows the packed words to denote.
 */
module BuddyInterleaving {
  import opened Words
  import opened Bitmaps
  import opened Blocks

  datatype Config = Config(bits: nat, maxOrder: nat, minBlock: nat, zeroPolicy: bool) {
    ghost predicate Valid() { bits > 0 }

    function Blocks(order: nat): nat { if order <= maxOrder then Pow2(maxOrder - order) else 0 }

    /** Words of an order's bitmap that hold slots, and words that a scan visits. */
    function ActualWords(order: nat): nat
      requires Valid()
    {
      (Blocks(order) + bits - 1) / bits
    }

    function ScanWords(order: nat): (n: nat)
      requires Valid()
      ensures n > 0
    {
      Pow2(Log2Ceil(if ActualWords(order) >= 1 then ActualWords(order) else 1))
    }
  }

  /** Where a thread is, with the locals it needs. `h` is a block it holds. */
  datatype Pc =
    | Idle
      // allocate
    | LoadSummary(target: nat)
    | Bump(target: nat, summary: Option<set<nat>>, order: nat)
    | LoadWord(target: nat, summary: Option<set<nat>>, order: nat, start: nat, i: nat)
    | ClaimBit(target: nat, summary: Option<set<nat>>, order: nat, start: nat, i: nat, bit: nat)
    | AllocCheck(target: nat, h: Block, w: nat)
    | AllocClear(target: nat, h: Block)
    | SplitRaise(target: nat, h: Block)
    | SplitPublish(target: nat, h: Block)
    | ZeroCheck(h: Block, u: nat)
    | Zeroing(h: Block, u: nat)
    | RecordAlloc(h: Block)
      // release
    | RecordFree(h: Block)
    | Scrubbing(h: Block, u: nat)
    | MarkZeroed(h: Block, u: nat)
    | Climb(h: Block)
    | ClimbCheck(h: Block, from: nat, w: nat)
    | ClimbClear(h: Block, from: nat)
    | Raise(h: Block)
    | Publish(h: Block)

  datatype State = State(
    free: set<Block>,
    summary: set<nat>,
    cursors: map<nat, nat>,
    zeroed: set<nat>,
    dirty: set<nat>,          // minimum blocks that hold a nonzero byte
    bytesLive: int,
    live: map<nat, Block>,    // outstanding buffers
    nextHandle: nat,
    threads: map<nat, Pc>,
    doubleFree: bool          // the assertion of `AtomicBitmap::free` has fired
  ) {
    function At(t: nat): Pc { if t in threads then threads[t] else Idle }
  }

  datatype Event =
    | StartAlloc(t: nat, target: nat)
    | StartRelease(t: nat, handle: nat)
    | Write(handle: nat, u: nat)
    | Step(t: nat)

  // ----- local control flow

  /** The `for order in target..=max_order` loop up to the next bitmap it scans. */
  function NextOrder(c: Config, target: nat, summary: Option<set<nat>>, order: nat): Pc
    decreases summary.Some?, c.maxOrder + 1 - order
  {
    if order > c.maxOrder then (if summary.Some? then NextOrder(c, target, None, target) else Idle)
    else if summary.Some? && order !in summary.value then NextOrder(c, target, summary, order + 1)
    else Bump(target, summary, order)
  }

  function AfterSplit(c: Config, target: nat, h: Block): Pc
  {
    if h.order > target then SplitRaise(target, h)
    else if c.zeroPolicy then ZeroCheck(h, Lo(h))
    else RecordAlloc(h)
  }

  function AfterScrub(c: Config, h: Block): Pc
  {
    if h.order < c.maxOrder then Climb(h) else Raise(h)
  }

  function Hi(h: Block): nat { Lo(h) + Pow2(h.order) }

  ghost function WordBits(free: set<Block>, order: nat, bits: nat, w: nat): (r: set<nat>)
    requires bits > 0
    ensures forall b: nat :: b in r <==> Block(order, b) in free && b / bits == w
  {
    set x | x in free && x.order == order && x.idx / bits == w :: x.idx
  }

  // ----- atomic steps

  /** One atomic step of a thread: the shared state it leaves, with its own program counter. */
  ghost function StepOf(c: Config, s: State, pc: Pc): (State, Pc)
    requires c.Valid()
  {
    match pc
    case Idle => (s, Idle)
    case LoadSummary(target) => (s, NextOrder(c, target, Some(s.summary), target))
    case Bump(target, summary, order) =>
      var cur := if order in s.cursors then s.cursors[order] else 0;
      (s.(cursors := s.cursors[order := (cur + 1) % Pow2(c.bits)]),
       LoadWord(target, summary, order, cur % c.ScanWords(order), 0))
    case LoadWord(target, summary, order, start, i) =>
      var bits := WordBits(s.free, order, c.bits, (start + i) % c.ScanWords(order));
      (s, if bits != {} then ClaimBit(target, summary, order, start, i, Least(bits))
      else if i + 1 < c.ScanWords(order) then LoadWord(target, summary, order, start, i + 1)
      else NextOrder(c, target, summary, order + 1))
    case ClaimBit(target, summary, order, start, i, bit) =>
      var h := Block(order, bit);
      (s.(free := s.free - {h}),
       if h in s.free then AllocCheck(target, h, 0) else LoadWord(target, summary, order, start, i))
    case AllocCheck(target, h, w) =>
      (s, if WordBits(s.free, h.order, c.bits, w) != {} then AfterSplit(c, target, h)
      else if w + 1 < c.ActualWords(h.order) then AllocCheck(target, h, w + 1)
      else AllocClear(target, h))
    case AllocClear(target, h) =>
      (s.(summary := s.summary - {h.order}), AfterSplit(c, target, h))
    case SplitRaise(target, h) =>
      (s.(summary := s.summary + {if h.order > 0 then h.order - 1 else 0}), SplitPublish(target, h))
    case SplitPublish(target, h) =>
      if h.order == 0 then (s, pc)
      else (s.(free := s.free + {Right(h)}, doubleFree := s.doubleFree || Right(h) in s.free),
            AfterSplit(c, target, Left(h)))
    case ZeroCheck(h, u) =>
      (s, if u !in s.zeroed then Zeroing(h, Lo(h)) else if u + 1 < Hi(h) then ZeroCheck(h, u + 1) else RecordAlloc(h))
    case Zeroing(h, u) =>
      (s.(dirty := s.dirty - {u}), if u + 1 < Hi(h) then Zeroing(h, u + 1) else RecordAlloc(h))
    case RecordAlloc(h) =>
      (s.(bytesLive := s.bytesLive + c.minBlock * Pow2(h.order),
          live := s.live[s.nextHandle := h], nextHandle := s.nextHandle + 1), Idle)
    case RecordFree(h) =>
      (s.(bytesLive := s.bytesLive - c.minBlock * Pow2(h.order)),
       if c.zeroPolicy then Scrubbing(h, Lo(h)) else AfterScrub(c, h))
    case Scrubbing(h, u) =>
      (s.(dirty := s.dirty - {u}), if u + 1 < Hi(h) then Scrubbing(h, u + 1) else MarkZeroed(h, Lo(h)))
    case MarkZeroed(h, u) =>
      (s.(zeroed := s.zeroed + {u}), if u + 1 < Hi(h) then MarkZeroed(h, u + 1) else AfterScrub(c, h))
    case Climb(h) =>
      (s.(free := s.free - {Buddy(h)}),
       if Buddy(h) in s.free then ClimbCheck(Parent(h), h.order, 0) else Raise(h))
    case ClimbCheck(h, from, w) =>
      (s, if WordBits(s.free, from, c.bits, w) != {} then AfterScrub(c, h)
      else if w + 1 < c.ActualWords(from) then ClimbCheck(h, from, w + 1)
      else ClimbClear(h, from))
    case ClimbClear(h, from) => (s.(summary := s.summary - {from}), AfterScrub(c, h))
    case Raise(h) => (s.(summary := s.summary + {h.order}), Publish(h))
    case Publish(h) =>
      (s.(free := s.free + {h}, doubleFree := s.doubleFree || h in s.free), Idle)
  }

  ghost function Apply(c: Config, s: State, e: Event): State
    requires c.Valid()
  {
    match e
    case StartAlloc(t, target) =>
      if s.At(t).Idle? then s.(threads := s.threads[t := LoadSummary(target)]) else s
    case StartRelease(t, handle) =>
      if s.At(t).Idle? && handle in s.live
      then s.(live := s.live - {handle}, threads := s.threads[t := RecordFree(s.live[handle])])
      else s
    case Write(handle, u) =>
      if handle in s.live && Inside(Block(0, u), s.live[handle]) then s.(dirty := s.dirty + {u}) else s
    case Step(t) =>
      var (s', pc) := StepOf(c, s, s.At(t));
      s'.(threads := s.threads[t := pc])
  }

  ghost function Run(c: Config, s: State, es: seq<Event>): State
    requires c.Valid()
  {
    if es == [] then s else Apply(c, Run(c, s, es[..|es| - 1]), es[|es| - 1])
  }

  /** The state after construction; the memory may hold anything. */
  function Init(c: Config, dirty: set<nat>): State
  {
    State({Top(c.maxOrder)}, {c.maxOrder}, map[], {}, dirty, 0, map[], 0, map[], false)
  }

  // ----- who holds which block

  datatype Piece = FreePiece(x: Block) | LivePiece(handle: nat, x: Block) | HeldPiece(t: nat, x: Block)

  function Holding(pc: Pc): Option<Block>
  {
    match pc
    case Idle => None
    case LoadSummary(_) => None
    case Bump(_, _, _) => None
    case LoadWord(_, _, _, _, _) => None
    case ClaimBit(_, _, _, _, _, _) => None
    case AllocCheck(_, h, _) => Some(h)
    case AllocClear(_, h) => Some(h)
    case SplitRaise(_, h) => Some(h)
    case SplitPublish(_, h) => Some(h)
    case ZeroCheck(h, _) => Some(h)
    case Zeroing(h, _) => Some(h)
    case RecordAlloc(h) => Some(h)
    case RecordFree(h) => Some(h)
    case Scrubbing(h, _) => Some(h)
    case MarkZeroed(h, _) => Some(h)
    case Climb(h) => Some(h)
    case ClimbCheck(h, _, _) => Some(h)
    case ClimbClear(h, _) => Some(h)
    case Raise(h) => Some(h)
    case Publish(h) => Some(h)
  }

  ghost predicate IsPiece(s: State, p: Piece)
  {
    match p
    case FreePiece(x) => x in s.free
    case LivePiece(handle, x) => handle in s.live && s.live[handle] == x
    case HeldPiece(t, x) => Holding(s.At(t)) == Some(x)
  }

  ghost function Pieces(s: State): iset<Piece>
  {
    iset p: Piece | IsPiece(s, p)
  }

  /** Every minimum block of the arena is in exactly one piece: a free bit, a live buffer, or
      a block one thread holds in flight. */
  ghost predicate Tiling(maxOrder: nat, ps: iset<Piece>)
  {
    && (forall p :: p in ps ==> Inside(p.x, Top(maxOrder)))
    && (forall p, q :: p in ps && q in ps && p != q ==> !Overlap(p.x, q.x))
    && (forall u: nat :: u < Pow2(maxOrder) ==> Covered(ps, u))
  }

  ghost predicate Covered(ps: iset<Piece>, u: nat)
  {
    exists p :: p in ps && Inside(Block(0, u), p.x)
  }

  lemma TilingInitial(c: Config, dirty: set<nat>)
    ensures Tiling(c.maxOrder, Pieces(Init(c, dirty)))
  {
    var ps := Pieces(Init(c, dirty));
    var top := FreePiece(Top(c.maxOrder));
    assert top in ps;
    forall p | p in ps ensures p == top {}
    forall u: nat | u < Pow2(c.maxOrder) ensures Covered(ps, u) {
      UnitInside(u, Top(c.maxOrder));
      assert top in ps && Inside(Block(0, u), top.x);
    }
  }

  /** A block changes owner. */
  lemma Retag(maxOrder: nat, ps: iset<Piece>, p: Piece, q: Piece)
    requires Tiling(maxOrder, ps) && p in ps && p.x == q.x && q !in ps - iset{p}
    ensures Tiling(maxOrder, ps - iset{p} + iset{q})
  {
    var ps' := ps - iset{p} + iset{q};
    forall u: nat | u < Pow2(maxOrder) ensures Covered(ps', u) {
      assert Covered(ps, u);
      var r :| r in ps && Inside(Block(0, u), r.x);
      var r' := if r == p then q else r;
      assert r' in ps' && Inside(Block(0, u), r'.x);
    }
  }

  /** A held block is split: the left half stays held, the right half is published. */
  lemma SplitPiece(maxOrder: nat, ps: iset<Piece>, t: nat, h: Block)
    requires Tiling(maxOrder, ps) && HeldPiece(t, h) in ps && h.order > 0
    ensures FreePiece(Right(h)) !in ps
    ensures Tiling(maxOrder, ps - iset{HeldPiece(t, h)} + iset{HeldPiece(t, Left(h)), FreePiece(Right(h))})
  {
    var p, l, r := HeldPiece(t, h), HeldPiece(t, Left(h)), FreePiece(Right(h));
    var ps' := ps - iset{p} + iset{l, r};
    InsideTrans(l.x, h, Top(maxOrder));
    InsideTrans(r.x, h, Top(maxOrder));
    forall q | q in ps && q != p ensures !Overlap(q.x, l.x) && !Overlap(q.x, r.x) {
      OverlapHalves(h, q.x);
    }
    forall u: nat | u < Pow2(maxOrder) ensures Covered(ps', u) {
      assert Covered(ps, u);
      var q :| q in ps && Inside(Block(0, u), q.x);
      if q == p { InsideHalf(Block(0, u), h); }
      var q' := if q != p then q else if Inside(Block(0, u), l.x) then l else r;
      assert q' in ps' && Inside(Block(0, u), q'.x);
    }
  }

  /** A thread claims the buddy of the block it holds. */
  lemma MergePieces(maxOrder: nat, ps: iset<Piece>, t: nat, h: Block)
    requires Tiling(maxOrder, ps) && HeldPiece(t, h) in ps && FreePiece(Buddy(h)) in ps
    ensures Tiling(maxOrder, ps - iset{HeldPiece(t, h), FreePiece(Buddy(h))} + iset{HeldPiece(t, Parent(h))})
  {
    hide Inside, Overlap, Covered;
    var p, b, m := HeldPiece(t, h), FreePiece(Buddy(h)), HeldPiece(t, Parent(h));
    var ps' := ps - iset{p, b} + iset{m};
    MergedInside(h, maxOrder);
    forall q | q in ps && q != p && q != b ensures !Overlap(q.x, m.x) && !Overlap(m.x, q.x) { MergedApart(h, q.x); }
    forall u: nat | u < Pow2(maxOrder) ensures Covered(ps', u) { MergedCovers(ps, t, h, u); }
  }

  /** What avoids both halves avoids the whole. */
  lemma MergedApart(h: Block, x: Block)
    requires !Overlap(x, h) && !Overlap(x, Buddy(h))
    ensures !Overlap(x, Parent(h)) && !Overlap(Parent(h), x)
  {
    assert {h, Buddy(h)} == {Left(Parent(h)), Right(Parent(h))};
    OverlapHalves(Parent(h), x);
  }

  lemma MergedCovers(ps: iset<Piece>, t: nat, h: Block, u: nat)
    requires HeldPiece(t, h) in ps && FreePiece(Buddy(h)) in ps && Covered(ps, u)
    ensures Covered(ps - iset{HeldPiece(t, h), FreePiece(Buddy(h))} + iset{HeldPiece(t, Parent(h))}, u)
  {
    var p, b, m := HeldPiece(t, h), FreePiece(Buddy(h)), HeldPiece(t, Parent(h));
    var ps' := ps - iset{p, b} + iset{m};
    var q :| q in ps && Inside(Block(0, u), q.x);
    if q == p || q == b {
      InsideTrans(Block(0, u), q.x, m.x);
      assert m in ps' && Inside(Block(0, u), m.x);
    } else {
      assert q in ps' && Inside(Block(0, u), q.x);
    }
  }

  lemma MergedInside(h: Block, maxOrder: nat)
    requires Inside(h, Top(maxOrder)) && Inside(Buddy(h), Top(maxOrder))
    ensures Inside(Parent(h), Top(maxOrder))
  {
    if h == Top(maxOrder) { InsideOrder(Buddy(h), h); }
  }

  // ----- every atomic step keeps the tiling

  /** Splitting threads hold a block above their target; handles are fresh. */
  ghost predicate PcShaped(pc: Pc)
  {
    pc.SplitRaise? || pc.SplitPublish? ==> pc.h.order > pc.target
  }

  ghost predicate Shaped(s: State)
  {
    && (forall t: nat :: PcShaped(s.At(t)))
    && (forall handle :: handle in s.live ==> handle < s.nextHandle)
  }

  lemma {:induction false} NextOrderHoldsNothing(c: Config, target: nat, summary: Option<set<nat>>, order: nat)
    ensures var pc := NextOrder(c, target, summary, order); pc.Idle? || pc.Bump?
    decreases summary.Some?, c.maxOrder + 1 - order
  {
    if order > c.maxOrder {
      if summary.Some? { NextOrderHoldsNothing(c, target, None, target); }
    } else if summary.Some? && order !in summary.value {
      NextOrderHoldsNothing(c, target, summary, order + 1);
    }
  }

  /** A block changed owner. */
  ghost predicate Retagged(ps: iset<Piece>, ps': iset<Piece>, p: Piece, q: Piece)
  {
    p in ps && p.x == q.x && q !in ps - iset{p} && ps' == ps - iset{p} + iset{q}
  }

  ghost predicate SplitBy(ps: iset<Piece>, ps': iset<Piece>, t: nat, h: Block)
  {
    && HeldPiece(t, h) in ps && h.order > 0
    && ps' == ps - iset{HeldPiece(t, h)} + iset{HeldPiece(t, Left(h)), FreePiece(Right(h))}
  }

  ghost predicate MergedBy(ps: iset<Piece>, ps': iset<Piece>, t: nat, h: Block)
  {
    && HeldPiece(t, h) in ps && FreePiece(Buddy(h)) in ps
    && ps' == ps - iset{HeldPiece(t, h), FreePiece(Buddy(h))} + iset{HeldPiece(t, Parent(h))}
  }

  /** What the pieces after a step are, in terms of those before it. */
  ghost predicate PiecesAfter(ps: iset<Piece>, ps': iset<Piece>)
  {
    || ps' == ps
    || (exists p, q :: Retagged(ps, ps', p, q))
    || (exists t, h :: SplitBy(ps, ps', t, h))
    || (exists t, h :: MergedBy(ps, ps', t, h))
  }

  lemma PiecesAfterTile(maxOrder: nat, ps: iset<Piece>, ps': iset<Piece>)
    requires Tiling(maxOrder, ps) && PiecesAfter(ps, ps')
    ensures Tiling(maxOrder, ps')
  {
    hide Tiling;
    if ps' == ps {
    } else if p, q :| Retagged(ps, ps', p, q) {
      Retag(maxOrder, ps, p, q);
    } else if t, h :| SplitBy(ps, ps', t, h) {
      SplitPiece(maxOrder, ps, t, h);
    } else {
      var t, h :| MergedBy(ps, ps', t, h);
      MergePieces(maxOrder, ps, t, h);
    }
  }

  lemma OwnShaped(c: Config, s: State, pc: Pc)
    requires c.Valid() && PcShaped(pc)
    ensures PcShaped(StepOf(c, s, pc).1)
  {
    hide Lo, Hi, Pow2, WordBits, Least, NextOrder, Config.ScanWords, Config.ActualWords;
    if pc.LoadSummary? { NextOrderHoldsNothing(c, pc.target, Some(s.summary), pc.target); }
    if pc.LoadWord? { NextOrderHoldsNothing(c, pc.target, pc.summary, pc.order + 1); }
  }

  lemma ShapedStep(c: Config, s: State, e: Event)
    requires c.Valid() && Shaped(s)
    ensures Shaped(Apply(c, s, e))
  {
    hide StepOf, PcShaped;
    var s' := Apply(c, s, e);
    if e.Step? { HandlesBelow(c, s, s.At(e.t)); }
    forall o: nat ensures PcShaped(s'.At(o)) {
      assert PcShaped(s.At(o));
      if e.Step? && e.t == o { OwnShaped(c, s, s.At(o)); } else { StartShaped(c, s, e, o); }
    }
  }

  lemma HandlesBelow(c: Config, s: State, pc: Pc)
    requires c.Valid() && forall handle :: handle in s.live ==> handle < s.nextHandle
    ensures var s' := StepOf(c, s, pc).0; forall handle :: handle in s'.live ==> handle < s'.nextHandle
  {
    hide Lo, Hi, Pow2, WordBits, Least, NextOrder, AfterSplit, AfterScrub;
  }

  lemma StartShaped(c: Config, s: State, e: Event, o: nat)
    requires c.Valid() && PcShaped(s.At(o)) && !(e.Step? && e.t == o)
    ensures PcShaped(Apply(c, s, e).At(o))
  {
    hide StepOf;
  }

  lemma TilingStep(c: Config, s: State, e: Event)
    requires c.Valid() && Shaped(s) && Tiling(c.maxOrder, Pieces(s))
    ensures Shaped(Apply(c, s, e)) && Tiling(c.maxOrder, Pieces(Apply(c, s, e)))
    ensures Apply(c, s, e).doubleFree == s.doubleFree
  {
    hide Tiling;
    ShapedStep(c, s, e);
    var s' := Apply(c, s, e);
    var ps, ps' := Pieces(s), Pieces(s');
    match e {
      case StartAlloc(t, target) =>
        assert ps' == ps;
      case Write(handle, u) =>
        assert ps' == ps;
      case StartRelease(t, handle) =>
        if s.At(t).Idle? && handle in s.live {
          var p, q := LivePiece(handle, s.live[handle]), HeldPiece(t, s.live[handle]);
          assert p in ps && q !in ps;
          assert Retagged(ps, ps', p, q);
        } else {
          assert ps' == ps;
        }
      case Step(t) =>
        ThreadStep(c, s, t);
    }
    PiecesAfterTile(c.maxOrder, ps, ps');
  }

  lemma ThreadStep(c: Config, s: State, t: nat)
    requires c.Valid() && Shaped(s) && Tiling(c.maxOrder, Pieces(s))
    ensures PiecesAfter(Pieces(s), Pieces(Apply(c, s, Step(t))))
    ensures Apply(c, s, Step(t)).doubleFree == s.doubleFree
  {
    var s' := Apply(c, s, Step(t));
    var pc := s.At(t);
    match pc {
      case SplitPublish(target, h) => SplitStep(c, s, t);
      case Publish(h) => PublishStep(c, s, t);
      case ClaimBit(_, _, _, _, _, _) => ClaimStep(c, s, t);
      case Climb(_) => ClimbStep(c, s, t);
      case RecordAlloc(_) => GrantStep(c, s, t);
      case _ => LocalStep(c, s, t);
    }
  }

  /** Steps that move no block. */
  lemma LocalStep(c: Config, s: State, t: nat)
    requires c.Valid() && Shaped(s)
    requires var pc := s.At(t); !(pc.SplitPublish? || pc.Publish? || pc.ClaimBit? || pc.Climb? || pc.RecordAlloc?)
    ensures var s' := Apply(c, s, Step(t));
            Pieces(s') == Pieces(s) && s'.doubleFree == s.doubleFree
  {
    hide Lo, Hi, Pow2, WordBits, Least, NextOrder;
    var s' := Apply(c, s, Step(t));
    var pc := s.At(t);
    if pc.LoadSummary? { NextOrderHoldsNothing(c, pc.target, Some(s.summary), pc.target); }
    if pc.LoadWord? { NextOrderHoldsNothing(c, pc.target, pc.summary, pc.order + 1); }
    assert Holding(s'.At(t)) == Holding(pc) && s'.free == s.free && s'.live == s.live;
    SamePieces(s, s', t);
  }

  lemma SamePieces(s: State, s': State, t: nat)
    requires s'.free == s.free && s'.live == s.live && Holding(s'.At(t)) == Holding(s.At(t))
    requires forall o: nat :: o != t ==> s'.At(o) == s.At(o)
    ensures Pieces(s') == Pieces(s)
  {
    forall p: Piece ensures IsPiece(s', p) <==> IsPiece(s, p) {
      if p.HeldPiece? && p.t != t { assert s'.At(p.t) == s.At(p.t); }
    }
  }

  lemma ClaimStep(c: Config, s: State, t: nat)
    requires c.Valid() && Shaped(s) && s.At(t).ClaimBit?
    ensures var s' := Apply(c, s, Step(t));
            PiecesAfter(Pieces(s), Pieces(s')) && s'.doubleFree == s.doubleFree
  {
    var s' := Apply(c, s, Step(t));
    var h := Block(s.At(t).order, s.At(t).bit);
    if h in s.free {
      var p, q := FreePiece(h), HeldPiece(t, h);
      assert p in Pieces(s) && q !in Pieces(s);
      assert Retagged(Pieces(s), Pieces(s'), p, q);
    } else {
      SamePieces(s, s', t);
    }
  }

  lemma GrantStep(c: Config, s: State, t: nat)
    requires c.Valid() && Shaped(s) && s.At(t).RecordAlloc?
    ensures var s' := Apply(c, s, Step(t));
            PiecesAfter(Pieces(s), Pieces(s')) && s'.doubleFree == s.doubleFree
  {
    var s' := Apply(c, s, Step(t));
    var h := s.At(t).h;
    var p, q := HeldPiece(t, h), LivePiece(s.nextHandle, h);
    assert p in Pieces(s) && q !in Pieces(s);
    assert Retagged(Pieces(s), Pieces(s'), p, q);
  }

  lemma SplitStep(c: Config, s: State, t: nat)
    requires c.Valid() && Shaped(s) && Tiling(c.maxOrder, Pieces(s)) && s.At(t).SplitPublish?
    ensures var s' := Apply(c, s, Step(t));
            PiecesAfter(Pieces(s), Pieces(s')) && s'.doubleFree == s.doubleFree
  {
    hide Tiling;
    var s' := Apply(c, s, Step(t));
    assert PcShaped(s.At(t));
    var h := s.At(t).h;
    assert HeldPiece(t, h) in Pieces(s);
    SplitPiece(c.maxOrder, Pieces(s), t, h);
    assert Right(h) !in s.free;
    assert SplitBy(Pieces(s), Pieces(s'), t, h);
  }

  lemma ClimbStep(c: Config, s: State, t: nat)
    requires c.Valid() && Shaped(s) && s.At(t).Climb?
    ensures var s' := Apply(c, s, Step(t));
            PiecesAfter(Pieces(s), Pieces(s')) && s'.doubleFree == s.doubleFree
  {
    var s' := Apply(c, s, Step(t));
    var h := s.At(t).h;
    if Buddy(h) in s.free {
      assert HeldPiece(t, h) in Pieces(s) && FreePiece(Buddy(h)) in Pieces(s);
      assert MergedBy(Pieces(s), Pieces(s'), t, h);
    } else {
      SamePieces(s, s', t);
    }
  }

  lemma PublishStep(c: Config, s: State, t: nat)
    requires c.Valid() && Shaped(s) && Tiling(c.maxOrder, Pieces(s)) && s.At(t).Publish?
    ensures var s' := Apply(c, s, Step(t));
            PiecesAfter(Pieces(s), Pieces(s')) && s'.doubleFree == s.doubleFree
  {
    var s' := Apply(c, s, Step(t));
    var h := s.At(t).h;
    var p, q := HeldPiece(t, h), FreePiece(h);
    assert p in Pieces(s);
    assert Overlap(h, h) && q !in Pieces(s);
    assert Retagged(Pieces(s), Pieces(s'), p, q);
  }

  // ----- live bytes

  /** Pieces whose size is in `bytes_live`: added after the claim, subtracted before the publish. */
  ghost function CountedPieces(s: State): iset<Piece>
  {
    iset p: Piece | IsPiece(s, p) && (p.LivePiece? || (p.HeldPiece? && s.At(p.t).RecordFree?))
  }

  ghost function CoveredUnits(maxOrder: nat, ps: iset<Piece>): set<nat>
  {
    set u: nat | u in AllSlots(Pow2(maxOrder)) && Covered(ps, u)
  }

  ghost predicate BytesExact(c: Config, s: State)
  {
    s.bytesLive == c.minBlock * |CoveredUnits(c.maxOrder, CountedPieces(s))|
  }

  /** `units` are the minimum blocks inside `x`. */
  ghost predicate AreUnits(x: Block, units: set<nat>)
  {
    && (forall u: nat :: u in units <==> Inside(Block(0, u), x))
    && |units| == Pow2(x.order)
  }

  ghost function UnitsOf(x: Block): (r: set<nat>)
    ensures AreUnits(x, r)
    decreases x.order
  {
    if x.order == 0 then
      UnitsOfUnit(x);
      {x.idx}
    else
      var l, r := UnitsOf(Left(x)), UnitsOf(Right(x));
      UnitsOfHalves(x, l, r);
      l + r
  }

  lemma UnitsOfUnit(x: Block)
    requires x.order == 0
    ensures AreUnits(x, {x.idx})
  {
  }

  lemma UnitsOfHalves(x: Block, l: set<nat>, r: set<nat>)
    requires x.order > 0 && AreUnits(Left(x), l) && AreUnits(Right(x), r)
    ensures AreUnits(x, l + r)
  {
    hide Inside;
    forall u: nat ensures (u in l + r <==> Inside(Block(0, u), x)) && !(u in l && u in r) {
      UnitHalves(x, u);
    }
    assert l * r == {};
  }

  lemma UnitHalves(x: Block, u: nat)
    requires x.order > 0
    ensures Inside(Block(0, u), x) <==> Inside(Block(0, u), Left(x)) || Inside(Block(0, u), Right(x))
    ensures !(Inside(Block(0, u), Left(x)) && Inside(Block(0, u), Right(x)))
  {
    hide Inside, Lo, Pow2;
    UnitInside(u, x);
    UnitInside(u, Left(x));
    UnitInside(u, Right(x));
    HalvesPosition(x);
    Pow2Step(x.order - 1);
  }

  lemma CoveredPlus(ps: iset<Piece>, q: Piece, u: nat)
    ensures Covered(ps + iset{q}, u) <==> Covered(ps, u) || Inside(Block(0, u), q.x)
  {
    hide Inside;
    if Covered(ps, u) {
      var p :| p in ps && Inside(Block(0, u), p.x);
      assert p in ps + iset{q};
    }
    if Inside(Block(0, u), q.x) { assert q in ps + iset{q}; }
  }

  lemma CoveredApart(ps: iset<Piece>, q: Piece, u: nat)
    requires Covered(ps, u) && forall p :: p in ps ==> !Overlap(p.x, q.x)
    ensures !Inside(Block(0, u), q.x)
  {
    hide Inside, Overlap;
    var p :| p in ps && Inside(Block(0, u), p.x);
    if Inside(Block(0, u), q.x) { Laminar(Block(0, u), p.x, q.x); }
  }

  /** Adding a piece that overlaps none of the counted ones adds its size. */
  lemma CoveredUnitsAdd(maxOrder: nat, ps: iset<Piece>, q: Piece)
    requires Inside(q.x, Top(maxOrder)) && forall p :: p in ps ==> !Overlap(p.x, q.x)
    ensures |CoveredUnits(maxOrder, ps + iset{q})| == |CoveredUnits(maxOrder, ps)| + Pow2(q.x.order)
  {
    hide Pow2, AllSlots, Inside, Overlap, Covered;
    var before, more, after := CoveredUnits(maxOrder, ps), UnitsOf(q.x), CoveredUnits(maxOrder, ps + iset{q});
    forall u: nat ensures (u in after <==> u in before || u in more) && !(u in before && u in more) {
      CoveredPlus(ps, q, u);
      if Covered(ps, u) { CoveredApart(ps, q, u); }
      if Inside(Block(0, u), q.x) { UnitOfArena(maxOrder, q.x, u); }
    }
    assert after == before + more && before * more == {};
  }

  lemma UnitOfArena(maxOrder: nat, x: Block, u: nat)
    requires Inside(Block(0, u), x) && Inside(x, Top(maxOrder))
    ensures u < Pow2(maxOrder)
  {
    InsideTrans(Block(0, u), x, Top(maxOrder));
    UnitInside(u, Top(maxOrder));
  }

  lemma BytesStep(c: Config, s: State, e: Event)
    requires c.Valid() && Shaped(s) && Tiling(c.maxOrder, Pieces(s)) && BytesExact(c, s)
    ensures BytesExact(c, Apply(c, s, e))
  {
    hide Tiling;
    var s' := Apply(c, s, e);
    var ps, ps' := CountedPieces(s), CountedPieces(s');
    match e {
      case StartAlloc(t, target) => assert ps' == ps;
      case Write(handle, u) => assert ps' == ps;
      case StartRelease(t, handle) => CountedRelease(c, s, t, handle);
      case Step(t) =>
        var pc := s.At(t);
        if pc.RecordAlloc? {
          CountedGrant(c, s, t);
        } else if pc.RecordFree? {
          CountedFree(c, s, t);
        } else {
          CountedSame(c, s, t);
        }
    }
  }

  lemma CountedSame(c: Config, s: State, t: nat)
    requires c.Valid() && !s.At(t).RecordAlloc? && !s.At(t).RecordFree?
    ensures var s' := Apply(c, s, Step(t)); CountedPieces(s') == CountedPieces(s) && s'.bytesLive == s.bytesLive
  {
    hide Lo, Hi, Pow2, WordBits, Least, NextOrder;
    var s' := Apply(c, s, Step(t));
    var pc := s.At(t);
    if pc.LoadSummary? { NextOrderHoldsNothing(c, pc.target, Some(s.summary), pc.target); }
    if pc.LoadWord? { NextOrderHoldsNothing(c, pc.target, pc.summary, pc.order + 1); }
    assert !s'.At(t).RecordFree? && s'.live == s.live;
  }

  lemma CountedRelease(c: Config, s: State, t: nat, handle: nat)
    requires c.Valid() && Shaped(s) && BytesExact(c, s)
    ensures BytesExact(c, Apply(c, s, StartRelease(t, handle)))
  {
    hide Pow2, WordBits, Least, NextOrder, Inside, Overlap, StepOf, Covered;
    var s' := Apply(c, s, StartRelease(t, handle));
    if s.At(t).Idle? && handle in s.live {
      var p, q := LivePiece(handle, s.live[handle]), HeldPiece(t, s.live[handle]);
      var ps, ps' := CountedPieces(s), CountedPieces(s');
      assert p in ps && q !in ps && ps' == ps - iset{p} + iset{q};
      assert ps == ps' - iset{q} + iset{p};
      forall u: nat ensures Covered(ps', u) <==> Covered(ps, u) {
        if Covered(ps, u) { CoveredRetag(ps, p, q, u); }
        if Covered(ps', u) { CoveredRetag(ps', q, p, u); }
      }
      assert CoveredUnits(c.maxOrder, ps') == CoveredUnits(c.maxOrder, ps);
    }
  }

  /** A block that changes owner covers what it covered. */
  lemma CoveredRetag(ps: iset<Piece>, p: Piece, q: Piece, u: nat)
    requires Covered(ps, u) && p.x == q.x
    ensures Covered(ps - iset{p} + iset{q}, u)
  {
    hide Inside;
    var r :| r in ps && Inside(Block(0, u), r.x);
    var r' := if r == p then q else r;
    assert r' in ps - iset{p} + iset{q} && Inside(Block(0, u), r'.x);
  }

  lemma CountedGrant(c: Config, s: State, t: nat)
    requires c.Valid() && Shaped(s) && Tiling(c.maxOrder, Pieces(s)) && BytesExact(c, s) && s.At(t).RecordAlloc?
    ensures BytesExact(c, Apply(c, s, Step(t)))
  {
    hide Pow2, WordBits, Least, NextOrder, Inside, Overlap, CoveredUnits;
    var s' := Apply(c, s, Step(t));
    var h := s.At(t).h;
    var p, q := HeldPiece(t, h), LivePiece(s.nextHandle, h);
    var ps := CountedPieces(s);
    assert p in Pieces(s) && forall r :: r in ps ==> r in Pieces(s) && r != p;
    assert CountedPieces(s') == ps + iset{q};
    CoveredUnitsAdd(c.maxOrder, ps, q);
    Distribute(c.minBlock, |CoveredUnits(c.maxOrder, ps)|, Pow2(h.order));
  }

  lemma CountedFree(c: Config, s: State, t: nat)
    requires c.Valid() && Shaped(s) && Tiling(c.maxOrder, Pieces(s)) && BytesExact(c, s) && s.At(t).RecordFree?
    ensures BytesExact(c, Apply(c, s, Step(t)))
  {
    hide Pow2, WordBits, Least, NextOrder, Inside, Overlap, CoveredUnits, Lo;
    var s' := Apply(c, s, Step(t));
    var h := s.At(t).h;
    var p := HeldPiece(t, h);
    var ps := CountedPieces(s');
    assert p in Pieces(s) && forall r :: r in ps ==> r in Pieces(s) && r != p;
    assert CountedPieces(s) == ps + iset{p};
    CoveredUnitsAdd(c.maxOrder, ps, p);
    Distribute(c.minBlock, |CoveredUnits(c.maxOrder, ps)|, Pow2(h.order));
  }

  /** The counter never underflows and never exceeds the arena. */
  lemma BytesBounded(c: Config, s: State)
    requires BytesExact(c, s)
    ensures 0 <= s.bytesLive <= c.minBlock * Pow2(c.maxOrder)
  {
    hide Pow2, CountedPieces;
    CoveredAtMost(c.maxOrder, CountedPieces(s));
    ScaleMonotone(c.minBlock, |CoveredUnits(c.maxOrder, CountedPieces(s))|, Pow2(c.maxOrder));
  }

  lemma CoveredAtMost(maxOrder: nat, ps: iset<Piece>)
    ensures |CoveredUnits(maxOrder, ps)| <= Pow2(maxOrder)
  {
    hide Pow2, Covered;
    SubsetSize(CoveredUnits(maxOrder, ps), AllSlots(Pow2(maxOrder)));
  }

  // ----- the zero policy

  /** A piece whose unit `u` may legitimately hold data: live, or still to be scrubbed. */
  ghost predicate Exposes(s: State, p: Piece, u: nat)
  {
    && IsPiece(s, p) && Inside(Block(0, u), p.x)
    && match p
       case FreePiece(_) => false
       case LivePiece(_, _) => true
       case HeldPiece(t, _) => s.At(t).RecordFree? || (s.At(t).Scrubbing? && s.At(t).u <= u)
  }

  ghost predicate Exposed(s: State, u: nat)
  {
    exists p :: Exposes(s, p, u)
  }

  ghost predicate CleanRange(s: State, lo: nat, hi: nat)
  {
    forall u: nat :: lo <= u < hi ==> u !in s.dirty
  }

  /** What a thread has established about the block it holds. */
  ghost predicate PcClean(c: Config, s: State, pc: Pc)
  {
    match pc
    case ZeroCheck(h, u) => Lo(h) <= u < Hi(h) && CleanRange(s, Lo(h), u)
    case Zeroing(h, u) => Lo(h) <= u < Hi(h) && CleanRange(s, Lo(h), u)
    case Scrubbing(h, u) => c.zeroPolicy && Lo(h) <= u < Hi(h) && CleanRange(s, Lo(h), u)
    case MarkZeroed(h, u) => c.zeroPolicy && Lo(h) <= u < Hi(h) && CleanRange(s, Lo(h), Hi(h))
    case RecordAlloc(h) => c.zeroPolicy ==> CleanRange(s, Lo(h), Hi(h))
    case _ => true
  }

  /** A minimum block whose zeroed bit is set is free of data unless it is live or awaits
      its scrub, although the bits are never cleared. */
  ghost predicate ZeroPolicy(c: Config, s: State)
  {
    && (forall u: nat :: u in s.zeroed && u in s.dirty ==> Exposed(s, u))
    && (forall t: nat :: PcClean(c, s, s.At(t)))
    && (!c.zeroPolicy ==> s.zeroed == {})
  }

  /** A unit of a held block that is not exposed by its holder is exposed by nobody. */
  lemma HeldNotExposed(c: Config, s: State, t: nat, h: Block, u: nat)
    requires Tiling(c.maxOrder, Pieces(s)) && Holding(s.At(t)) == Some(h) && Inside(Block(0, u), h)
    requires !Exposes(s, HeldPiece(t, h), u)
    ensures !Exposed(s, u)
  {
    var q := HeldPiece(t, h);
    assert q in Pieces(s);
    forall p ensures !Exposes(s, p, u) {
      if Exposes(s, p, u) {
        assert p in Pieces(s) && p != q;
        Laminar(Block(0, u), p.x, q.x);
      }
    }
  }

  lemma ZeroStep(c: Config, s: State, e: Event)
    requires c.Valid() && Shaped(s) && Tiling(c.maxOrder, Pieces(s)) && ZeroPolicy(c, s)
    ensures ZeroPolicy(c, Apply(c, s, e))
  {
    hide Tiling, Shaped, PcClean, Exposed, StepOf;
    var s' := Apply(c, s, e);
    forall u: nat | u in s'.zeroed && u in s'.dirty ensures Exposed(s', u) { ExposedStep(c, s, e, u); }
    if !c.zeroPolicy {
      forall u: nat | u in s'.zeroed ensures false { ZeroedGrowsClean(c, s, e, u); }
    }
    forall t: nat ensures PcClean(c, s', s'.At(t)) {
      assert PcClean(c, s, s.At(t));
      if e.Step? && e.t == t { OwnPcClean(c, s, t); } else { OtherPcClean(c, s, e, t); }
    }
  }

  lemma OtherPcClean(c: Config, s: State, e: Event, t: nat)
    requires c.Valid() && Tiling(c.maxOrder, Pieces(s)) && PcClean(c, s, s.At(t)) && !(e.Step? && e.t == t)
    ensures PcClean(c, Apply(c, s, e), Apply(c, s, e).At(t))
  {
    hide Tiling, Lo, Hi, Pow2, WordBits, Least, NextOrder, AfterSplit, AfterScrub, PcClean;
    if e.Write? {
      WriteKeepsClean(c, s, e, t);
    } else if e.Step? {
      StepKeepsClean(c, s, e.t, t);
    } else {
      StartKeepsClean(c, s, e, t);
    }
  }

  /** A step of another thread makes no unit dirty. */
  lemma StepKeepsClean(c: Config, s: State, u: nat, t: nat)
    requires c.Valid() && PcClean(c, s, s.At(t)) && u != t
    ensures PcClean(c, Apply(c, s, Step(u)), Apply(c, s, Step(u)).At(t))
  {
    hide Lo, Hi, Pow2, WordBits, Least, NextOrder, AfterSplit, AfterScrub, PcClean;
    CleanerKeepsClean(c, s, Apply(c, s, Step(u)), s.At(t));
  }

  lemma CleanerKeepsClean(c: Config, s: State, s': State, pc: Pc)
    requires PcClean(c, s, pc) && s'.dirty <= s.dirty
    ensures PcClean(c, s', pc)
  {
    hide Lo, Hi, Pow2;
  }

  lemma StartKeepsClean(c: Config, s: State, e: Event, t: nat)
    requires c.Valid() && PcClean(c, s, s.At(t)) && !e.Step? && !e.Write?
    ensures PcClean(c, Apply(c, s, e), Apply(c, s, e).At(t))
  {
    hide Lo, Hi, Pow2;
  }

  /** A write goes to a live block, which no thread holds. */
  lemma WriteKeepsClean(c: Config, s: State, e: Event, t: nat)
    requires c.Valid() && e.Write? && Tiling(c.maxOrder, Pieces(s)) && PcClean(c, s, s.At(t))
    ensures PcClean(c, Apply(c, s, e), s.At(t))
  {
    var pc := s.At(t);
    if Holding(pc).Some? && e.handle in s.live && Inside(Block(0, e.u), s.live[e.handle]) {
      var h := Holding(pc).value;
      var p, q := LivePiece(e.handle, s.live[e.handle]), HeldPiece(t, h);
      assert p in Pieces(s) && q in Pieces(s);
      if Inside(Block(0, e.u), h) { Laminar(Block(0, e.u), p.x, h); }
      UnitInside(e.u, h);
    }
  }

  lemma UnitInRange(u: nat, h: Block)
    ensures Inside(Block(0, u), h) <==> Lo(h) <= u < Hi(h)
  {
    UnitInside(u, h);
  }

  lemma BlockNonempty(h: Block)
    ensures Lo(h) < Hi(h)
  {
  }

  lemma HeldNonempty(pc: Pc)
    ensures Holding(pc).Some? ==> Lo(Holding(pc).value) < Hi(Holding(pc).value)
  {
    if Holding(pc).Some? { BlockNonempty(Holding(pc).value); }
  }

  lemma OwnPcClean(c: Config, s: State, t: nat)
    requires c.Valid() && Tiling(c.maxOrder, Pieces(s)) && ZeroPolicy(c, s)
    ensures PcClean(c, Apply(c, s, Step(t)), Apply(c, s, Step(t)).At(t))
  {
    hide Tiling, Lo, Hi, Pow2, WordBits, Least, NextOrder, Apply;
    var pc := s.At(t);
    assert PcClean(c, s, pc);
    if pc.ZeroCheck? {
      UnitInRange(pc.u, pc.h);
      if pc.u in s.zeroed { HeldNotExposed(c, s, t, pc.h, pc.u); }
    }
    if pc.ZeroCheck? || pc.Zeroing? || pc.Scrubbing? || pc.MarkZeroed? {
      CleaningStep(c, s, t);
    } else {
      ClaimingStep(c, s, t);
    }
  }

  lemma CleaningStep(c: Config, s: State, t: nat)
    requires c.Valid() && PcClean(c, s, s.At(t))
    requires var pc := s.At(t);
             && (pc.ZeroCheck? || pc.Zeroing? || pc.Scrubbing? || pc.MarkZeroed?)
             && (pc.ZeroCheck? && pc.u in s.zeroed ==> pc.u !in s.dirty)
    ensures PcClean(c, Apply(c, s, Step(t)), Apply(c, s, Step(t)).At(t))
  {
    hide Lo, Hi, Pow2, WordBits, Least, NextOrder;
  }

  lemma ClaimingStep(c: Config, s: State, t: nat)
    requires c.Valid() && PcClean(c, s, s.At(t))
    requires var pc := s.At(t); !(pc.ZeroCheck? || pc.Zeroing? || pc.Scrubbing? || pc.MarkZeroed?)
    ensures PcClean(c, Apply(c, s, Step(t)), Apply(c, s, Step(t)).At(t))
  {
    hide Lo, Hi, Pow2, WordBits, Least, NextOrder;
    var pc := s.At(t);
    match pc {
      case LoadSummary(target) => NextOrderHoldsNothing(c, target, Some(s.summary), target);
      case LoadWord(target, summary, order, _, _) => NextOrderHoldsNothing(c, target, summary, order + 1);
      case SplitPublish(_, h) => if h.order > 0 { BlockNonempty(Left(h)); }
      case _ => HeldNonempty(pc);
    }
  }

  /** A zeroed bit is set only for a unit that was just scrubbed. */
  lemma ZeroedGrowsClean(c: Config, s: State, e: Event, u: nat)
    requires c.Valid() && ZeroPolicy(c, s) && u in Apply(c, s, e).zeroed && u !in s.zeroed
    ensures c.zeroPolicy && u !in Apply(c, s, e).dirty
  {
    assert PcClean(c, s, s.At(e.t));
  }

  lemma ExposedStep(c: Config, s: State, e: Event, u: nat)
    requires c.Valid() && Shaped(s) && Tiling(c.maxOrder, Pieces(s)) && ZeroPolicy(c, s)
    requires var s' := Apply(c, s, e); u in s'.zeroed && u in s'.dirty
    ensures Exposed(Apply(c, s, e), u)
  {
    hide Tiling, Shaped, StepOf, Exposes;
    if e.Step? {
      if u !in s.zeroed {
        ZeroedGrowsClean(c, s, e, u);
        assert false;
      }
      DirtyStays(c, s, e.t, u);
      var p :| Exposes(s, p, u);
      ExposedByThread(c, s, e.t, u, p);
    } else {
      ExposedByStart(c, s, e, u);
    }
  }

  lemma DirtyStays(c: Config, s: State, t: nat, u: nat)
    requires c.Valid() && u in Apply(c, s, Step(t)).dirty
    ensures u in s.dirty
  {
    hide Lo, Hi, Pow2, WordBits, Least, NextOrder;
  }

  lemma ExposedByStart(c: Config, s: State, e: Event, u: nat)
    requires c.Valid() && Shaped(s) && ZeroPolicy(c, s) && !e.Step?
    requires var s' := Apply(c, s, e); u in s'.zeroed && u in s'.dirty
    ensures Exposed(Apply(c, s, e), u)
  {
    hide Lo, Hi, Pow2, WordBits, Least, NextOrder, StepOf;
    var s' := Apply(c, s, e);
    if e.Write? && u !in s.dirty {
      assert Exposes(s', LivePiece(e.handle, s.live[e.handle]), u);
    } else {
      var p :| Exposes(s, p, u);
      var p' := if e.StartRelease? && p.LivePiece? && p.handle == e.handle && s.At(e.t).Idle?
                then HeldPiece(e.t, p.x) else p;
      assert Exposes(s', p', u);
    }
  }

  lemma ExposedByThread(c: Config, s: State, t: nat, u: nat, p: Piece)
    requires c.Valid() && Shaped(s) && ZeroPolicy(c, s)
    requires Exposes(s, p, u) && u in s.zeroed && u in Apply(c, s, Step(t)).dirty
    ensures Exposed(Apply(c, s, Step(t)), u)
  {
    var s' := Apply(c, s, Step(t));
    if p.HeldPiece? && p.t == t {
      UnitInside(u, p.x);
      assert PcClean(c, s, s.At(t));
    }
    if p.LivePiece? { assert p.handle < s.nextHandle; }
    assert Exposes(s', p, u);
  }

  // ----- whole runs

  ghost predicate Inv(c: Config, s: State)
  {
    && Shaped(s) && Tiling(c.maxOrder, Pieces(s))
    && BytesExact(c, s)
    && ZeroPolicy(c, s)
    && !s.doubleFree
  }

  lemma InvInitial(c: Config, dirty: set<nat>)
    ensures Inv(c, Init(c, dirty))
  {
    hide Tiling;
    TilingInitial(c, dirty);
    var s := Init(c, dirty);
    assert CoveredUnits(c.maxOrder, CountedPieces(s)) == {};
  }

  lemma InvStep(c: Config, s: State, e: Event)
    requires c.Valid() && Inv(c, s)
    ensures Inv(c, Apply(c, s, e))
  {
    hide Tiling, BytesExact, ZeroPolicy, Shaped;
    TilingStep(c, s, e);
    BytesStep(c, s, e);
    ZeroStep(c, s, e);
  }

  lemma {:induction false} InvRun(c: Config, dirty: set<nat>, es: seq<Event>)
    requires c.Valid()
    ensures Inv(c, Run(c, Init(c, dirty), es))
  {
    hide Inv;
    if es == [] {
      InvInitial(c, dirty);
    } else {
      InvRun(c, dirty, es[..|es| - 1]);
      InvStep(c, Run(c, Init(c, dirty), es[..|es| - 1]), es[|es| - 1]);
    }
  }

  /** After any interleaving: live buffers never overlap each other, a free block or a block
      in flight, and every minimum block has an owner. */
  lemma RunTiles(c: Config, dirty: set<nat>, es: seq<Event>, p: Piece, q: Piece, u: nat)
    requires c.Valid()
    ensures var s := Run(c, Init(c, dirty), es);
            && (IsPiece(s, p) && IsPiece(s, q) && p != q ==> !Overlap(p.x, q.x))
            && (u < Pow2(c.maxOrder) ==> exists r :: IsPiece(s, r) && Inside(Block(0, u), r.x))
  {
    InvRun(c, dirty, es);
    var ps := Pieces(Run(c, Init(c, dirty), es));
    assert IsPiece(Run(c, Init(c, dirty), es), p) <==> p in ps;
    assert IsPiece(Run(c, Init(c, dirty), es), q) <==> q in ps;
    if u < Pow2(c.maxOrder) {
      assert Covered(ps, u);
      var r :| r in ps && Inside(Block(0, u), r.x);
      assert IsPiece(Run(c, Init(c, dirty), es), r);
    }
  }

  /** The double-free assertion never fires, and the live-byte counter stays within the arena. */
  lemma RunNeverPanics(c: Config, dirty: set<nat>, es: seq<Event>)
    requires c.Valid()
    ensures var s := Run(c, Init(c, dirty), es);
            !s.doubleFree && 0 <= s.bytesLive <= c.minBlock * Pow2(c.maxOrder)
  {
    InvRun(c, dirty, es);
    BytesBounded(c, Run(c, Init(c, dirty), es));
  }

  /** Under the zero policy every buffer handed out, whatever ran before, is all zero: when a
      thread is about to hand out `h`, no minimum block of `h` holds a nonzero byte. */
  lemma RunHandsOutZeros(c: Config, dirty: set<nat>, es: seq<Event>, t: nat, u: nat)
    requires c.Valid() && c.zeroPolicy
    ensures var s := Run(c, Init(c, dirty), es);
            s.At(t).RecordAlloc? && Inside(Block(0, u), s.At(t).h) ==> u !in s.dirty
  {
    InvRun(c, dirty, es);
    var s := Run(c, Init(c, dirty), es);
    assert PcClean(c, s, s.At(t));
    if s.At(t).RecordAlloc? { UnitInside(u, s.At(t).h); }
  }

  // ----- building runs

  lemma RunSnoc(c: Config, s: State, es: seq<Event>, e: Event)
    requires c.Valid()
    ensures Run(c, s, es + [e]) == Apply(c, Run(c, s, es), e)
  {
    assert (es + [e])[..|es|] == es;
  }

  lemma RunEmpty(c: Config, s: State)
    requires c.Valid()
    ensures Run(c, s, []) == s
  {
  }

  lemma Advance(c: Config, s: State, es: seq<Event>, cur: State, e: Event) returns (es': seq<Event>, next: State)
    requires c.Valid() && cur == Run(c, s, es)
    ensures es' == es + [e] && next == Run(c, s, es') && next == Apply(c, cur, e)
  {
    RunSnoc(c, s, es, e);
    es', next := es + [e], Apply(c, cur, e);
  }
}
