/** Aligned power-of-two blocks and the set of free blocks that a set of live ones determines.

    A block is an order and an index (src/buddy.rs). `Inside` is the tree order:
    `x` is reached from `y` by splitting. Two blocks share memory exactly when one is
    inside the other, so no interval arithmetic is needed until bytes enter.
 */
module Blocks {
  import opened Words

  datatype Block = Block(order: nat, idx: nat)

  function Parent(x: Block): (p: Block)
  {
    Block(x.order + 1, x.idx / 2)
  }

  function Left(x: Block): (l: Block)
    requires x.order > 0
    ensures Parent(l) == x
  {
    Block(x.order - 1, x.idx * 2)
  }

  function Right(x: Block): (r: Block)
    requires x.order > 0
    ensures Parent(r) == x && r != Left(x)
  {
    Block(x.order - 1, x.idx * 2 + 1)
  }

  /** `block_idx ^ 1`. */
  function Buddy(x: Block): (b: Block)
    ensures Parent(b) == Parent(x) && b != x && Buddy'(b) == x
  {
    Buddy'(x)
  }

  function Buddy'(x: Block): Block
  {
    Block(x.order, if x.idx % 2 == 0 then x.idx + 1 else x.idx - 1)
  }

  function Top(maxOrder: nat): Block
  {
    Block(maxOrder, 0)
  }

  /** `x` is `y` or one of the pieces `y` splits into. */
  predicate Inside(x: Block, y: Block)
    decreases y.order - x.order
  {
    x == y || (x.order < y.order && Inside(Parent(x), y))
  }

  predicate Overlap(x: Block, y: Block)
  {
    Inside(x, y) || Inside(y, x)
  }

  lemma {:induction false} InsideOrder(x: Block, y: Block)
    requires Inside(x, y)
    ensures x.order <= y.order && (x.order == y.order ==> x == y)
  {
  }

  lemma {:induction false} InsideTrans(x: Block, y: Block, z: Block)
    requires Inside(x, y) && Inside(y, z)
    ensures Inside(x, z)
    decreases y.order - x.order
  {
    InsideOrder(y, z);
    if x != y { InsideTrans(Parent(x), y, z); }
  }

  /** The ancestors of a block form a chain. */
  lemma {:induction false} Laminar(x: Block, y: Block, z: Block)
    requires Inside(x, y) && Inside(x, z)
    ensures Overlap(y, z)
    decreases y.order - x.order
  {
    if x != y && x != z { Laminar(Parent(x), y, z); }
  }

  /** What is strictly inside a block is inside one of its halves. */
  lemma {:induction false} InsideHalf(x: Block, y: Block)
    requires Inside(x, y) && x != y
    ensures y.order > 0 && (Inside(x, Left(y)) || Inside(x, Right(y)))
    decreases y.order - x.order
  {
    if Parent(x) != y {
      InsideHalf(Parent(x), y);
      if Inside(Parent(x), Left(y)) { InsideOrder(Parent(x), Left(y)); }
      if Inside(Parent(x), Right(y)) { InsideOrder(Parent(x), Right(y)); }
    }
  }

  /** A block overlaps a whole exactly when it overlaps one of the halves. */
  lemma OverlapHalves(h: Block, y: Block)
    requires h.order > 0
    ensures Overlap(h, y) <==> Overlap(Left(h), y) || Overlap(Right(h), y)
  {
    var l, r := Left(h), Right(h);
    assert Inside(l, h) && Inside(r, h);
    if Inside(y, h) && y != h { InsideHalf(y, h); }
    if Inside(h, y) { InsideTrans(l, h, y); }
    if Inside(y, l) { InsideTrans(y, l, h); }
    if Inside(y, r) { InsideTrans(y, r, h); }
    if Inside(l, y) { Laminar(l, h, y); }
    if Inside(r, y) { Laminar(r, h, y); }
  }

  /** Parts of disjoint blocks are disjoint. */
  lemma OverlapGrows(x: Block, y: Block, z: Block)
    requires Inside(x, y) && Overlap(x, z)
    ensures Overlap(y, z)
  {
    if Inside(x, z) { Laminar(x, y, z); } else { InsideTrans(z, x, y); }
  }

  ghost predicate Avoids(live: set<Block>, x: Block)
  {
    forall l :: l in live ==> !Overlap(l, x)
  }

  /** `x` lies in the arena, meets no live block, and is not part of a larger such block. */
  ghost predicate Maximal(top: Block, live: set<Block>, x: Block)
  {
    && Inside(x, top)
    && Avoids(live, x)
    && (x == top || !Avoids(live, Parent(x)))
  }

  /** `free` holds exactly the maximal aligned blocks that avoid `live`. */
  ghost predicate Canonical(top: Block, live: set<Block>, free: set<Block>)
  {
    forall x :: x in free <==> Maximal(top, live, x)
  }

  lemma AvoidsParts(live: set<Block>, x: Block, y: Block)
    requires Inside(x, y) && Avoids(live, y)
    ensures Avoids(live, x)
  {
    forall l | l in live ensures !Overlap(l, x) {
      if Overlap(l, x) { OverlapGrows(x, y, l); }
    }
  }

  lemma AvoidsOne(live: set<Block>, h: Block, y: Block)
    ensures Avoids(live + {h}, y) <==> Avoids(live, y) && !Overlap(h, y)
  {
    if Avoids(live + {h}, y) { assert h in live + {h}; }
  }

  /** The free blocks are a function of the live blocks alone. */
  lemma CanonicalUnique(top: Block, live: set<Block>, free: set<Block>, free': set<Block>)
    requires Canonical(top, live, free) && Canonical(top, live, free')
    ensures free == free'
  {
    forall x ensures x in free <==> x in free' {
      assert x in free <==> Maximal(top, live, x);
    }
  }

  /** With nothing live the whole arena is one free block. */
  lemma {:induction false} CanonicalEmpty(top: Block)
    ensures Canonical(top, {}, {top})
  {
  }

  lemma HeldAt(top: Block, live: set<Block>, h: Block, x: Block)
    requires Maximal(top, live, h)
    ensures Maximal(top, live + {h}, x) <==> Maximal(top, live, x) && x != h
  {
    AvoidsOne(live, h, x);
    AvoidsOne(live, h, Parent(x));
    if Maximal(top, live, x) && x != h {
      MaximalDisjoint(top, live, x, h);
    } else if Maximal(top, live + {h}, x) {
      if Avoids(live, Parent(x)) && x != top {
        assert Overlap(h, Parent(x));
        if Inside(Parent(x), h) {
          InsideTrans(x, Parent(x), h);
        } else {
          AvoidsParts(live, Parent(h), Parent(x));
        }
      }
    }
  }

  /** Claiming a whole free block makes it live and changes no other free block. */
  lemma TakeWhole(top: Block, live: set<Block>, free: set<Block>, h: Block)
    requires Canonical(top, live, free) && h in free
    ensures Canonical(top, live + {h}, free - {h})
    ensures Inside(h, top) && Avoids(live, h)
  {
    assert Maximal(top, live, h);
    forall x ensures x in free - {h} <==> Maximal(top, live + {h}, x) {
      HeldAt(top, live, h, x);
    }
  }

  /** Holding one half of a block instead of the whole frees exactly the other half. */
  lemma HalfAt(top: Block, live: set<Block>, h: Block, a: Block, x: Block)
    requires Parent(a) == h && Inside(h, top) && Avoids(live, h)
    ensures Maximal(top, live + {a}, x) <==> Maximal(top, live + {h}, x) || x == Buddy(a)
    ensures !Maximal(top, live + {h}, Buddy(a))
  {
    var b := Buddy(a);
    assert h.order > 0 && {a, b} == {Left(h), Right(h)};
    AvoidsOne(live, h, b);
    HalfAvoids(live, h, a, x);
    HalfAvoids(live, h, a, Parent(x));
    AvoidsOne(live, h, x);
    AvoidsOne(live, h, Parent(x));
    if x == b {
      InsideTrans(b, h, top);
      InsideOrder(h, top);
      AvoidsParts(live, b, h);
    } else if Inside(x, b) {
      StrictInside(h, x, b);
      AvoidsParts(live, Parent(x), h) by { InsideTrans(Parent(x), b, h); }
      InsideOrder(h, top);
      InsideOrder(Parent(x), b);
      InsideOrder(x, b);
    } else if Overlap(b, Parent(x)) && !Overlap(a, Parent(x)) {
      OverlapInHalf(h, b, Parent(x));
      InsideTrans(x, Parent(x), b);
      assert false;
    }
  }

  lemma OverlapInHalf(h: Block, b: Block, y: Block)
    requires h.order > 0 && Parent(b) == h && Overlap(b, y) && !Overlap(Buddy(b), y)
    ensures Inside(y, b)
  {
    if !Inside(y, b) {
      InsideTrans(Buddy(b), h, y);
      assert false;
    }
  }

  lemma HalfAvoids(live: set<Block>, h: Block, a: Block, y: Block)
    requires h.order > 0 && Parent(a) == h
    ensures Avoids(live + {a}, y) <==> Avoids(live, y) && !Overlap(a, y)
    ensures Overlap(h, y) <==> Overlap(a, y) || Overlap(Buddy(a), y)
  {
    AvoidsOne(live, a, y);
    OverlapHalves(h, y);
    assert {a, Buddy(a)} == {Left(h), Right(h)};
  }

  /** One step of `split_down`: keep the left half, publish the right one. */
  lemma SplitHeld(top: Block, live: set<Block>, free: set<Block>, h: Block)
    requires h.order > 0 && Inside(h, top) && Avoids(live, h)
    requires Canonical(top, live + {h}, free)
    ensures Right(h) !in free && Canonical(top, live + {Left(h)}, free + {Right(h)})
    ensures Inside(Left(h), top) && Inside(Right(h), top) && Avoids(live, Left(h))
  {
    forall x ensures x in free + {Right(h)} <==> Maximal(top, live + {Left(h)}, x) {
      HalfAt(top, live, h, Left(h), x);
    }
    InsideTrans(Left(h), h, top);
    InsideTrans(Right(h), h, top);
    AvoidsParts(live, Left(h), h);
  }

  /** One step of the climb in `release_block`: claim the buddy, hold the parent. */
  lemma MergeHeld(top: Block, live: set<Block>, free: set<Block>, h: Block)
    requires h != top && Inside(h, top) && Avoids(live, h)
    requires Canonical(top, live + {h}, free) && Buddy(h) in free
    ensures Canonical(top, live + {Parent(h)}, free - {Buddy(h)})
    ensures Inside(Parent(h), top) && Avoids(live, Parent(h))
  {
    AvoidsOne(live, h, Buddy(h));
    assert Maximal(top, live + {h}, Buddy(h));
    BothHalves(live, h);
    forall x ensures x in free - {Buddy(h)} <==> Maximal(top, live + {Parent(h)}, x) {
      HalfAt(top, live, Parent(h), h, x);
    }
  }

  lemma BothHalves(live: set<Block>, h: Block)
    requires Avoids(live, h) && Avoids(live, Buddy(h))
    ensures Avoids(live, Parent(h))
  {
    forall l | l in live ensures !Overlap(l, Parent(h)) {
      HalfAvoids(live, Parent(h), h, l);
    }
  }

  /** The end of the climb: with no free buddy the held block is maximal, so publishing
      it restores the free blocks the remaining live ones determine. */
  lemma PublishHeld(top: Block, live: set<Block>, free: set<Block>, h: Block)
    requires Inside(h, top) && Avoids(live, h)
    requires Canonical(top, live + {h}, free) && (h == top || Buddy(h) !in free)
    ensures h !in free && Canonical(top, live, free + {h})
  {
    if h != top && Avoids(live, Parent(h)) {
      HalfAt(top, live, Parent(h), h, Buddy(h));
      assert false;
    }
    forall x ensures x in free + {h} <==> Maximal(top, live, x) {
      HeldAt(top, live, h, x);
    }
  }

  lemma MaximalDisjoint(top: Block, live: set<Block>, x: Block, y: Block)
    requires Maximal(top, live, x) && Maximal(top, live, y) && x != y
    ensures !Overlap(x, y)
  {
    if Inside(x, y) { StrictInside(top, x, y); AvoidsParts(live, Parent(x), y); }
    if Inside(y, x) { StrictInside(top, y, x); AvoidsParts(live, Parent(y), x); }
  }

  lemma StrictInside(top: Block, x: Block, y: Block)
    requires Inside(x, y) && x != y && Inside(y, top)
    ensures x != top && Inside(Parent(x), y)
  {
    InsideOrder(y, top);
  }

  // ----- which requests can be served

  /** Every block that avoids the live ones is part of a maximal one. */
  lemma {:induction false} ClimbToMaximal(top: Block, live: set<Block>, x: Block) returns (m: Block)
    requires Inside(x, top) && Avoids(live, x)
    ensures Maximal(top, live, m) && Inside(x, m)
    decreases top.order - x.order
  {
    if x == top || !Avoids(live, Parent(x)) {
      m := x;
    } else {
      m := ClimbToMaximal(top, live, Parent(x));
    }
  }

  /** The piece of order `k` that is kept when always the left half is. */
  function Leftmost(x: Block, k: nat): (y: Block)
    requires k <= x.order
    ensures y.order == k && Inside(y, x)
    decreases x.order
  {
    if k == x.order then x else
      var y := Leftmost(Left(x), k);
      InsideTrans(y, Left(x), x);
      y
  }

  ghost predicate Available(free: set<Block>, k: nat)
  {
    exists x :: x in free && x.order >= k
  }

  ghost predicate Fits(top: Block, live: set<Block>, k: nat)
  {
    exists y: Block :: y.order == k && Inside(y, top) && Avoids(live, y)
  }

  /** A free block of order at least `k` exists exactly when some aligned block of order
      `k` avoids every live one: no request fails through fragmentation of free buddies. */
  lemma AvailableIffFits(top: Block, live: set<Block>, free: set<Block>, k: nat)
    requires Canonical(top, live, free)
    ensures Available(free, k) <==> Fits(top, live, k)
  {
    if Available(free, k) {
      var x :| x in free && x.order >= k;
      assert Maximal(top, live, x);
      var y := Leftmost(x, k);
      InsideTrans(y, x, top);
      AvoidsParts(live, y, x);
    }
    if Fits(top, live, k) {
      var y: Block :| y.order == k && Inside(y, top) && Avoids(live, y);
      var m := ClimbToMaximal(top, live, y);
      InsideOrder(y, m);
      assert m in free;
    }
  }

  /** Two buddies are never both free. */
  lemma NoFreeBuddies(top: Block, live: set<Block>, free: set<Block>, x: Block)
    requires Canonical(top, live, free) && x in free && x != top
    ensures Buddy(x) !in free
  {
    assert Maximal(top, live, x);
    if Buddy(x) in free {
      assert Maximal(top, live, Buddy(x));
      BothHalves(live, x);
    }
  }

  ghost predicate PairwiseDisjoint(bs: set<Block>)
  {
    forall x, y :: x in bs && y in bs && x != y ==> !Overlap(x, y)
  }

  ghost predicate AllInside(bs: set<Block>, top: Block)
  {
    forall x :: x in bs ==> Inside(x, top)
  }

  /** Live and free blocks tile the arena: each minimum block lies in exactly one of them. */
  lemma CanonicalTiles(top: Block, live: set<Block>, free: set<Block>, u: Block)
    requires Canonical(top, live, free) && PairwiseDisjoint(live)
    requires u.order == 0 && Inside(u, top)
    ensures live !! free
    ensures exists x :: x in live + free && Inside(u, x)
    ensures forall x, y :: x in live + free && y in live + free && Inside(u, x) && Inside(u, y) ==> x == y
  {
    assert forall x :: x in free ==> Maximal(top, live, x);
    if x :| x in live && x in free {
      assert Overlap(x, x);
      assert false;
    }
    if Avoids(live, u) {
      var m := ClimbToMaximal(top, live, u);
      assert m in live + free && Inside(u, m);
    } else {
      var l :| l in live && Overlap(l, u);
      if Inside(l, u) { InsideOrder(l, u); }
      assert l in live + free && Inside(u, l);
    }
    forall x, y | x in live + free && y in live + free && Inside(u, x) && Inside(u, y)
      ensures x == y
    {
      Laminar(u, x, y);
      if x in free && y in free && x != y { MaximalDisjoint(top, live, x, y); }
    }
  }

  // ----- sizes, in minimum blocks

  ghost function Units(bs: set<Block>): nat
  {
    if bs == {} then 0 else
      var x :| x in bs;
      Pow2(x.order) + Units(bs - {x})
  }

  lemma {:induction false} UnitsAdd(bs: set<Block>, x: Block)
    requires x !in bs
    ensures Units(bs + {x}) == Units(bs) + Pow2(x.order)
    ensures |bs + {x}| == |bs| + 1
  {
    assert bs * {x} == {};
    var all := bs + {x};
    var y :| y in all && Units(all) == Pow2(y.order) + Units(all - {y});
    if y == x {
      assert all - {y} == bs;
    } else {
      UnitsAdd(bs - {y}, x);
      assert bs - {y} + {x} == all - {y};
      assert bs - {y} + {y} == bs;
      UnitsAdd(bs - {y}, y);
    }
  }

  lemma UnitsRemove(bs: set<Block>, x: Block)
    requires x in bs
    ensures Units(bs) == Units(bs - {x}) + Pow2(x.order)
    ensures |bs| == |bs - {x}| + 1
  {
    assert bs - {x} + {x} == bs;
    UnitsAdd(bs - {x}, x);
  }

  // ----- positions

  /** First minimum block of `x`. */
  function Lo(x: Block): nat
  {
    x.idx * Pow2(x.order)
  }

  /** Being a piece of a block is lying in its range of minimum blocks. */
  lemma {:induction false} UnitInside(u: nat, x: Block)
    ensures Inside(Block(0, u), x) <==> Lo(x) <= u < Lo(x) + Pow2(x.order)
    decreases x.order
  {
    if x.order > 0 {
      var b := Block(0, u);
      UnitInside(u, Left(x));
      UnitInside(u, Right(x));
      HalvesPosition(x);
      if Inside(b, x) { InsideHalf(b, x); }
      if Inside(b, Left(x)) { InsideTrans(b, Left(x), x); }
      if Inside(b, Right(x)) { InsideTrans(b, Right(x), x); }
    }
  }

  lemma HalvesPosition(x: Block)
    requires x.order > 0
    ensures Lo(Left(x)) == Lo(x) && Lo(Right(x)) == Lo(x) + Pow2(x.order - 1)
  {
    var p := Pow2(x.order - 1);
    assert (x.idx * 2) * p == x.idx * (2 * p);
    assert (x.idx * 2 + 1) * p == (x.idx * 2) * p + p;
  }

  /** The blocks of the arena are those with `idx < blocks_at_order` (src/buddy.rs:755-757). */
  lemma {:induction false} InsideTop(x: Block, maxOrder: nat)
    ensures Inside(x, Top(maxOrder)) <==> x.order <= maxOrder && x.idx < Pow2(maxOrder - x.order)
    decreases maxOrder - x.order
  {
    if x.order < maxOrder { InsideTop(Parent(x), maxOrder); }
  }

  /** A block of the arena ends within it. */
  lemma {:induction false} BlockFits(x: Block, maxOrder: nat)
    requires Inside(x, Top(maxOrder))
    ensures Lo(x) + Pow2(x.order) <= Pow2(maxOrder)
  {
    InsideTop(x, maxOrder);
    Pow2Add(maxOrder - x.order, x.order);
    var p, n := Pow2(x.order), Pow2(maxOrder - x.order);
    MulGap(x.idx, n, p);
  }

  // ----- the invariant of the free blocks, with its counts

  /** `out` are the blocks in use, `free` the free ones, `net` the splits less the coalesces. */
  ghost predicate Books(maxOrder: nat, out: set<Block>, free: set<Block>, net: int)
  {
    && PairwiseDisjoint(out) && AllInside(out, Top(maxOrder))
    && Canonical(Top(maxOrder), out, free)
    && |out| + |free| == 1 + net
    && Units(out) + Units(free) == Pow2(maxOrder)
  }

  lemma BooksInitial(maxOrder: nat)
    ensures Books(maxOrder, {}, {Top(maxOrder)}, 0)
  {
    CanonicalEmpty(Top(maxOrder));
    UnitsAdd({}, Top(maxOrder));
    assert {} + {Top(maxOrder)} == {Top(maxOrder)};
  }

  lemma OverlapSelf(h: Block)
    ensures Overlap(h, h)
  {
  }

  lemma AddDisjoint(live: set<Block>, h: Block)
    requires PairwiseDisjoint(live) && Avoids(live, h)
    ensures h !in live && PairwiseDisjoint(live + {h})
  {
    hide Inside;
    OverlapSelf(h);
    forall x, y | x in live + {h} && y in live + {h} && x != y ensures !Overlap(x, y) {
      if x == h { assert y in live; }
    }
  }

  /** Adding a block of the arena that avoids the blocks in use. */
  lemma AddBlock(maxOrder: nat, live: set<Block>, h: Block)
    requires PairwiseDisjoint(live) && AllInside(live, Top(maxOrder))
    requires Avoids(live, h) && Inside(h, Top(maxOrder))
    ensures h !in live && PairwiseDisjoint(live + {h}) && AllInside(live + {h}, Top(maxOrder))
    ensures Units(live + {h}) == Units(live) + Pow2(h.order) && |live + {h}| == |live| + 1
  {
    hide Units, Pow2, Inside, Avoids, PairwiseDisjoint, AllInside;
    AddDisjoint(live, h);
    InsideBoth(live, h, Top(maxOrder));
    UnitsAdd(live, h);
  }

  lemma InsideBoth(live: set<Block>, h: Block, top: Block)
    ensures AllInside(live + {h}, top) <==> AllInside(live, top) && Inside(h, top)
  {
    hide Inside;
    if AllInside(live + {h}, top) {
      assert h in live + {h};
      forall x | x in live ensures Inside(x, top) { assert x in live + {h}; }
    }
  }

  /** Setting one block in use aside. */
  lemma DropBlock(maxOrder: nat, live: set<Block>, h: Block)
    requires PairwiseDisjoint(live + {h}) && AllInside(live + {h}, Top(maxOrder)) && h !in live
    ensures PairwiseDisjoint(live) && AllInside(live, Top(maxOrder))
    ensures Avoids(live, h) && Inside(h, Top(maxOrder)) && h.order <= maxOrder
    ensures Units(live + {h}) == Units(live) + Pow2(h.order) && |live + {h}| == |live| + 1
  {
    hide Units, Pow2, Inside, Avoids, PairwiseDisjoint, AllInside;
    HeldAvoids(live, h);
    InsideBoth(live, h, Top(maxOrder));
    InsideOrder(h, Top(maxOrder));
    UnitsAdd(live, h);
  }

  lemma HeldAvoids(live: set<Block>, h: Block)
    requires PairwiseDisjoint(live + {h}) && h !in live
    ensures PairwiseDisjoint(live) && Avoids(live, h)
  {
    hide Overlap;
    forall l | l in live ensures !Overlap(l, h) { assert l in live + {h} && h in live + {h}; }
    forall x, y | x in live && y in live && x != y ensures !Overlap(x, y) {
      assert x in live + {h} && y in live + {h};
    }
  }

  lemma BooksTake(maxOrder: nat, live: set<Block>, free: set<Block>, net: int, h: Block)
    requires Books(maxOrder, live, free, net) && h in free
    ensures Books(maxOrder, live + {h}, free - {h}, net)
    ensures h !in live && Inside(h, Top(maxOrder)) && Avoids(live, h)
  {
    hide Units, Canonical, Inside, Avoids, PairwiseDisjoint, AllInside, Pow2;
    TakeWhole(Top(maxOrder), live, free, h);
    AddBlock(maxOrder, live, h);
    UnitsRemove(free, h);
  }

  lemma BooksSplit(maxOrder: nat, live: set<Block>, free: set<Block>, net: int, h: Block)
    requires Books(maxOrder, live + {h}, free, net) && h !in live && h.order > 0
    ensures Left(h) !in live && Right(h) !in free
    ensures Inside(Left(h), Top(maxOrder)) && Inside(Right(h), Top(maxOrder))
    ensures Books(maxOrder, live + {Left(h)}, free + {Right(h)}, net + 1)
  {
    hide Units, Canonical, Inside, Avoids, PairwiseDisjoint, AllInside;
    DropBlock(maxOrder, live, h);
    SplitHeld(Top(maxOrder), live, free, h);
    AddBlock(maxOrder, live, Left(h));
    UnitsAdd(free, Right(h));
  }

  lemma BooksMerge(maxOrder: nat, live: set<Block>, free: set<Block>, net: int, h: Block)
    requires Books(maxOrder, live + {h}, free, net) && h !in live && h.order < maxOrder && Buddy(h) in free
    ensures Parent(h) !in live && Inside(Parent(h), Top(maxOrder))
    ensures Books(maxOrder, live + {Parent(h)}, free - {Buddy(h)}, net - 1)
  {
    hide Units, Canonical, Inside, Avoids, PairwiseDisjoint, AllInside;
    DropBlock(maxOrder, live, h);
    MergeHeld(Top(maxOrder), live, free, h);
    AddBlock(maxOrder, live, Parent(h));
    UnitsRemove(free, Buddy(h));
  }

  lemma BooksPublish(maxOrder: nat, live: set<Block>, free: set<Block>, net: int, h: Block)
    requires Books(maxOrder, live + {h}, free, net) && h !in live
    requires h.order == maxOrder || Buddy(h) !in free
    ensures h !in free && Inside(h, Top(maxOrder))
    ensures Books(maxOrder, live, free + {h}, net)
  {
    hide Units, Canonical, Avoids, PairwiseDisjoint, AllInside, Pow2;
    DropBlock(maxOrder, live, h);
    InsideOrder(h, Top(maxOrder));
    PublishHeld(Top(maxOrder), live, free, h);
    UnitsAdd(free, h);
  }

  /** Consequences of the invariant for one block in use. */
  lemma BooksHeld(maxOrder: nat, live: set<Block>, free: set<Block>, net: int, h: Block)
    requires Books(maxOrder, live + {h}, free, net) && h !in live
    ensures Inside(h, Top(maxOrder)) && h.order <= maxOrder && Avoids(live, h)
    ensures h.order < maxOrder ==> Inside(Buddy(h), Top(maxOrder))
  {
    DropBlock(maxOrder, live, h);
  }

  lemma BooksAvailable(maxOrder: nat, live: set<Block>, free: set<Block>, net: int, k: nat)
    requires Books(maxOrder, live, free, net)
    ensures Available(free, k) <==> Fits(Top(maxOrder), live, k)
    ensures Available(free, k) ==> k <= maxOrder
    ensures forall x :: x in free ==> Inside(x, Top(maxOrder)) && x.order <= maxOrder
  {
    AvailableIffFits(Top(maxOrder), live, free, k);
    forall x | x in free ensures Inside(x, Top(maxOrder)) && x.order <= maxOrder {
      assert Maximal(Top(maxOrder), live, x);
      InsideOrder(x, Top(maxOrder));
    }
  }

  // ----- consequences over whole histories

  /** Taking a block never makes a larger request possible. */
  lemma TakingKeepsScarce(maxOrder: nat, live: set<Block>, free: set<Block>, net: int, x: Block,
                          free': set<Block>, net': int, k: nat)
    requires Books(maxOrder, live, free, net) && Books(maxOrder, live + {x}, free', net')
    requires Available(free', k)
    ensures Available(free, k)
  {
    BooksAvailable(maxOrder, live, free, net, k);
    BooksAvailable(maxOrder, live + {x}, free', net', k);
    var y: Block :| y.order == k && Inside(y, Top(maxOrder)) && Avoids(live + {x}, y);
    AvoidsOne(live, x, y);
  }

  /** If returning `x` makes a block of order at least `k` available, the block the return
      published has at least that order. */
  lemma ReturnPublishesEnough(maxOrder: nat, live: set<Block>, x: Block, free: set<Block>, net: int,
                              free': set<Block>, net': int, h: Block, k: nat)
    requires Books(maxOrder, live + {x}, free, net) && Books(maxOrder, live, free', net')
    requires h in free' && Inside(x, h)
    requires !Available(free, k) && Available(free', k)
    ensures h.order >= k
  {
    var y :| y in free' && y.order >= k;
    assert Maximal(Top(maxOrder), live, y) && Maximal(Top(maxOrder), live, h);
    if Overlap(x, y) {
      OverlapGrows(x, h, y);
      if y != h { MaximalDisjoint(Top(maxOrder), live, h, y); }
    } else {
      var z := Leftmost(y, k);
      InsideTrans(z, y, Top(maxOrder));
      AvoidsOne(live, x, y);
      AvoidsParts(live + {x}, z, y);
      BooksAvailable(maxOrder, live + {x}, free, net, k);
      assert false;
    }
  }
}
