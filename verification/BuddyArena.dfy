/** `BuddyArena` (src/buddy.rs) with its per-order bitmaps, summary word, backing bytes and
    counters, one operation at a time.

    The invariant ties the bitmaps to the set of live blocks: the free blocks are exactly
    the maximal aligned blocks that avoid the live ones (`Blocks.Canonical`).
 */
module BuddyArenas {
  import opened Words
  import opened Bitmaps
  import opened Blocks
  import opened FreeMaps
  import opened Geometry

  newtype Byte = b: int | 0 <= b < 256

  datatype AllocResult = Allocated(block: Block, capacity: nat) | RequestTooLarge | ArenaFull

  // ----- the summary word

  /** Bit `o` of the summary is set exactly when order `o` has a free block. */
  ghost predicate SummaryExact(bits: nat, word: nat, free: set<Block>)
  {
    word < Pow2(bits) && forall o: nat :: Bit(word, o) <==> !EmptyAt(free, o)
  }

  lemma SummaryRaise(bits: nat, word: nat, free: set<Block>, x: Block)
    requires SummaryExact(bits, word, free) && x.order < bits
    ensures SummaryExact(bits, Or(word, Pow2(x.order)), free + {x})
  {
    Pow2Monotone(x.order, bits);
    OrBelow(bits, word, Pow2(x.order));
    forall o: nat ensures Bit(Or(word, Pow2(x.order)), o) <==> !EmptyAt(free + {x}, o) {
      OrBit(word, Pow2(x.order), o);
      Pow2Bit(x.order, o);
      assert x in free + {x};
      assert EmptyAt(free + {x}, o) <==> EmptyAt(free, o) && x.order != o;
    }
  }

  lemma SummaryLower(bits: nat, word: nat, free: set<Block>, x: Block)
    requires SummaryExact(bits, word, free) && x.order < bits && x in free
    ensures Pow2(x.order) < Pow2(bits)
    ensures EmptyAt(free - {x}, x.order) ==> SummaryExact(bits, And(word, Not(bits, Pow2(x.order))), free - {x})
    ensures !EmptyAt(free - {x}, x.order) ==> SummaryExact(bits, word, free - {x})
  {
    Pow2Monotone(x.order, bits);
    forall o: nat | o != x.order ensures EmptyAt(free - {x}, o) <==> EmptyAt(free, o) {
      if !EmptyAt(free, o) {
        var y :| y in free && y.order == o;
        assert y in free - {x};
      }
    }
    if EmptyAt(free - {x}, x.order) {
      forall o: nat ensures Bit(And(word, Not(bits, Pow2(x.order))), o) <==> !EmptyAt(free - {x}, o) {
        AndBit(word, Not(bits, Pow2(x.order)), o);
        NotBit(bits, Pow2(x.order), o);
        Pow2Bit(x.order, o);
        if o >= bits { HighBitsClear(bits, word, o); }
      }
    } else {
      assert !EmptyAt(free, x.order);
    }
  }

  // ----- bytes; `p` is the minimum block size

  /** First byte of a block: `block_idx * (min_block_size << order)`. */
  function Offset(p: nat, x: Block): nat
  {
    x.idx * (p * Pow2(x.order))
  }

  function BlockSize(p: nat, x: Block): nat
  {
    p * Pow2(x.order)
  }

  ghost predicate Zeros(s: seq<Byte>, lo: nat, len: nat)
  {
    forall j :: lo <= j < lo + len && j < |s| ==> s[j] == 0
  }

  ghost predicate UnitZero(s: seq<Byte>, p: nat, u: nat)
  {
    Zeros(s, u * p, p)
  }

  lemma OffsetIs(p: nat, x: Block)
    ensures Offset(p, x) == Lo(x) * p && BlockSize(p, x) == Pow2(x.order) * p
  {
    var n := Pow2(x.order);
    assert x.idx * (p * n) == (x.idx * n) * p;
  }

  /** A minimum block inside `x` has its bytes inside those of `x`, any other outside. */
  lemma UnitBytes(p: nat, x: Block, u: nat)
    ensures Inside(Block(0, u), x) ==> Offset(p, x) <= u * p && u * p + p <= Offset(p, x) + BlockSize(p, x)
    ensures !Inside(Block(0, u), x) ==> u * p + p <= Offset(p, x) || Offset(p, x) + BlockSize(p, x) <= u * p
  {
    hide Offset, BlockSize, Lo, Pow2, Inside;
    OffsetIs(p, x);
    UnitInside(u, x);
    ScaledRange(Lo(x), Pow2(x.order), p, u);
  }

  lemma ScaledRange(lo: nat, n: nat, p: nat, u: nat)
    ensures lo <= u < lo + n ==> lo * p <= u * p && u * p + p <= lo * p + n * p
    ensures u < lo ==> u * p + p <= lo * p
    ensures lo + n <= u ==> lo * p + n * p <= u * p
  {
    assert (lo + n) * p == lo * p + n * p;
    if u < lo { MulGap(u, lo, p); } else if lo < u { MulGap(lo, u, p); }
    if u < lo + n { MulGap(u, lo + n, p); } else if lo + n < u { MulGap(lo + n, u, p); }
  }

  /** Every byte of a block belongs to one of its minimum blocks. */
  lemma ByteUnit(p: nat, x: Block, j: nat) returns (u: nat)
    requires p > 0 && Offset(p, x) <= j < Offset(p, x) + BlockSize(p, x)
    ensures Inside(Block(0, u), x) && u * p <= j < u * p + p
  {
    u := j / p;
    DivModSplit(j, p);
    UnitBytes(p, x, u);
  }

  lemma BlockZeroFromUnits(s: seq<Byte>, p: nat, x: Block)
    requires p > 0
    requires forall u: nat :: Inside(Block(0, u), x) ==> UnitZero(s, p, u)
    ensures Zeros(s, Offset(p, x), BlockSize(p, x))
  {
    forall j | Offset(p, x) <= j < Offset(p, x) + BlockSize(p, x) && j < |s| ensures s[j] == 0 {
      var u := ByteUnit(p, x, j);
      assert UnitZero(s, p, u);
    }
  }

  lemma UnitsZeroFromBlock(s: seq<Byte>, p: nat, x: Block, u: nat)
    requires Zeros(s, Offset(p, x), BlockSize(p, x)) && Inside(Block(0, u), x)
    ensures UnitZero(s, p, u)
  {
    UnitBytes(p, x, u);
  }

  lemma BytesAdd(p: nat, live: set<Block>, x: Block)
    requires x !in live
    ensures p * Units(live + {x}) == p * Units(live) + BlockSize(p, x)
  {
    hide Units, Pow2;
    UnitsAdd(live, x);
    Distribute(p, Units(live), Pow2(x.order));
  }

  /** A block of the arena ends within the backing bytes. */
  lemma BytesFit(p: nat, maxOrder: nat, x: Block)
    requires Inside(x, Top(maxOrder))
    ensures Offset(p, x) + BlockSize(p, x) <= Pow2(maxOrder) * p
  {
    BlockFits(x, maxOrder);
    OffsetIs(p, x);
    ScaleBound(Lo(x), Pow2(x.order), Pow2(maxOrder), p);
  }

  lemma ScaleBound(lo: nat, n: nat, t: nat, p: nat)
    requires lo + n <= t
    ensures lo * p + n * p <= t * p
  {
    assert (lo + n) * p == lo * p + n * p;
    if lo + n < t { MulGap(lo + n, t, p); }
  }

  /** A returned and not reused minimum block whose zeroed bit is set holds only zeros. */
  ghost predicate Scrubbed(s: seq<Byte>, p: nat, live: set<Block>, zeroedUnits: set<nat>)
  {
    forall u: nat :: u in zeroedUnits && Avoids(live, Block(0, u)) ==> UnitZero(s, p, u)
  }

  /** Writing to bytes of a live block, or taking one more block, keeps the rest scrubbed. */
  lemma ScrubbedAfterWrite(s: seq<Byte>, s': seq<Byte>, p: nat, live: set<Block>, zeroedUnits: set<nat>, x: Block)
    requires Scrubbed(s, p, live, zeroedUnits) && |s'| == |s|
    requires forall j :: 0 <= j < |s| && !(Offset(p, x) <= j < Offset(p, x) + BlockSize(p, x)) ==> s'[j] == s[j]
    ensures Scrubbed(s', p, live + {x}, zeroedUnits)
  {
    hide Offset, BlockSize, UnitZero, Inside;
    forall u: nat | u in zeroedUnits && Avoids(live + {x}, Block(0, u)) ensures UnitZero(s', p, u) {
      AvoidsOne(live, x, Block(0, u));
      UnitElsewhere(s, s', p, u, x);
    }
  }

  lemma UnitElsewhere(s: seq<Byte>, s': seq<Byte>, p: nat, u: nat, x: Block)
    requires UnitZero(s, p, u) && |s'| == |s| && !Inside(Block(0, u), x)
    requires forall j :: 0 <= j < |s| && !(Offset(p, x) <= j < Offset(p, x) + BlockSize(p, x)) ==> s'[j] == s[j]
    ensures UnitZero(s', p, u)
  {
    hide Offset, BlockSize, Inside;
    UnitBytes(p, x, u);
  }

  /** Zeroing a live block and setting its zeroed bits lets it leave the live set. */
  lemma ScrubbedAfterReturn(s: seq<Byte>, s': seq<Byte>, p: nat, live: set<Block>, z: set<nat>, z': set<nat>, x: Block)
    requires Scrubbed(s, p, live, z) && |s'| == |s| && x in live
    requires forall j :: 0 <= j < |s| && !(Offset(p, x) <= j < Offset(p, x) + BlockSize(p, x)) ==> s'[j] == s[j]
    requires Zeros(s', Offset(p, x), BlockSize(p, x))
    requires forall u: nat :: u in z' ==> u in z || Inside(Block(0, u), x)
    ensures Scrubbed(s', p, live - {x}, z')
  {
    forall u: nat | u in z' && Avoids(live - {x}, Block(0, u)) ensures UnitZero(s', p, u) {
      if Inside(Block(0, u), x) {
        UnitsZeroFromBlock(s', p, x, u);
      } else {
        if Inside(x, Block(0, u)) { InsideOrder(x, Block(0, u)); }
        AvoidsOne(live - {x}, x, Block(0, u));
        assert live - {x} + {x} == live;
        UnitBytes(p, x, u);
        assert UnitZero(s, p, u);
      }
    }
  }

  class BuddyArena {
    const bits: nat
    const minBlock: nat
    ghost const minExp: nat
    const maxOrder: nat
    const maps: OrderMaps
    const zeroPolicy: bool
    /** Consulted only under the zero policy. */
    const zeroed: Bitmap
    const mem: array<Byte>
    const capCapacity: bool
    var nonemptyOrders: nat
    var allocationsOk: nat
    var allocationsFailed: nat
    var frees: nat
    var splits: nat
    var coalesces: nat
    var bytesLive: nat
    ghost var live: set<Block>

    ghost function Repr(): set<object>
    {
      maps.repr + {this, maps, zeroed, zeroed.words, mem}
    }

    ghost predicate Shape()
    {
      && minBlock == Pow2(minExp) && minExp + maxOrder < bits
      && maps.bits == bits && maps.maxOrder == maxOrder && maps.Shape()
      && zeroed.bits == bits && zeroed.slotCount == Pow2(maxOrder)
      && mem.Length == Pow2(minExp + maxOrder)
      && this !in maps.repr && zeroed !in maps.repr && zeroed.words !in maps.repr && mem !in maps.repr
      && mem as object != zeroed.words
    }

    /** What the bitmaps, the summary and the counters say when the blocks `out` are in
        use and `pending` splits are not yet counted. */
    ghost predicate Consistent(out: set<Block>, pending: nat)
      reads this`nonemptyOrders, this`splits, this`coalesces, maps, maps.repr
    {
      && Shape() && maps.Valid()
      && SummaryExact(bits, nonemptyOrders, maps.free)
      && Books(maxOrder, out, maps.free, splits + pending - coalesces)
    }

    ghost predicate MemoryOk()
      requires Shape()
      reads this`live, zeroed, zeroed.words, mem
    {
      zeroed.Valid() && (zeroPolicy ==> Scrubbed(mem[..], minBlock, live, zeroed.Members()))
    }

    ghost predicate Valid()
      reads this`live, this`bytesLive, this`nonemptyOrders, this`splits, this`coalesces
      reads maps, maps.repr, zeroed, zeroed.words, mem
    {
      && Consistent(live, 0)
      && MemoryOk()
      && bytesLive == minBlock * Units(live)
    }

    /** Initial state of `build_raw` (src/buddy.rs:487-516); the backing bytes are arbitrary. */
    constructor (bits: nat, minExp: nat, maxOrder: nat, zeroPolicy: bool, capCapacity: bool, mem: array<Byte>)
      requires minExp + maxOrder < bits && mem.Length == Pow2(minExp + maxOrder)
      ensures Valid() && live == {} && maps.free == {Top(maxOrder)}
      ensures fresh(Repr() - {mem}) && this.mem == mem
      ensures this.bits == bits && this.minExp == minExp && this.maxOrder == maxOrder
      ensures this.zeroPolicy == zeroPolicy && this.capCapacity == capCapacity
    {
      hide Books, SummaryExact, Offset, BlockSize, Inside;
      var maps := new OrderMaps(bits, maxOrder);
      maps.Publish(Top(maxOrder));
      Pow2Monotone(maxOrder, bits);
      var zeroed := new Bitmap(bits, Pow2(maxOrder), false);
      this.bits, this.minBlock, this.minExp, this.maxOrder, this.maps := bits, Pow2(minExp), minExp, maxOrder, maps;
      this.zeroPolicy, this.zeroed, this.mem, this.capCapacity := zeroPolicy, zeroed, mem, capCapacity;
      nonemptyOrders := Pow2(maxOrder);
      allocationsOk, allocationsFailed, frees, splits, coalesces, bytesLive := 0, 0, 0, 0, 0, 0;
      live := {};
      new;
      InitialSummary(bits, maxOrder);
      BooksInitial(maxOrder);
      assert maps.free == {Top(maxOrder)};
    }

    // ----- summary and bitmap together

    /** `maybe_clear_summary` (src/buddy.rs:738-743), after block `x` was claimed. */
    method MaybeClearSummary(ghost before: set<Block>, x: Block)
      requires Shape() && maps.Valid() && x.order <= maxOrder
      requires x in before && maps.free == before - {x}
      requires SummaryExact(bits, nonemptyOrders, before)
      modifies this`nonemptyOrders
      ensures SummaryExact(bits, nonemptyOrders, maps.free)
    {
      SummaryLower(bits, nonemptyOrders, before, x);
      var any := maps.AnyFree(x.order);
      if !any {
        nonemptyOrders := And(nonemptyOrders, Not(bits, Pow2(x.order)));
      }
    }

    /** `fetch_or` on the summary, then `free` on the bitmap. */
    method Publish(x: Block)
      requires Shape() && maps.Valid() && SummaryExact(bits, nonemptyOrders, maps.free)
      requires Inside(x, Top(maxOrder)) && x !in maps.free
      modifies maps.repr, this`nonemptyOrders
      ensures maps.Valid() && SummaryExact(bits, nonemptyOrders, maps.free)
      ensures maps.free == old(maps.free) + {x}
    {
      InsideOrder(x, Top(maxOrder));
      SummaryRaise(bits, nonemptyOrders, maps.free, x);
      nonemptyOrders := Or(nonemptyOrders, Pow2(x.order));
      maps.Publish(x);
    }

    // ----- allocation

    /** The least order from `target` up that has a free block, and the block its cursor picks. */
    ghost predicate IsSearch(target: nat, free: set<Block>, starts: seq<nat>, r: Option<Block>)
    {
      match r
      case None => forall o: nat :: target <= o <= maxOrder ==> EmptyAt(free, o)
      case Some(x) =>
        && target <= x.order <= maxOrder
        && (forall o: nat :: target <= o < x.order ==> EmptyAt(free, o))
        && x.order < |starts| && maps.Picked(free, starts[x.order], x)
    }

    /** The search has one possible outcome: skipping the orders the summary calls empty
        finds the same block as scanning every order. */
    lemma SearchUnique(target: nat, free: set<Block>, starts: seq<nat>, r: Option<Block>, r': Option<Block>)
      requires IsSearch(target, free, starts, r) && IsSearch(target, free, starts, r')
      ensures r == r'
    {
      if r.Some? { assert !EmptyAt(free, r.value.order); }
      if r'.Some? { assert !EmptyAt(free, r'.value.order); }
      if r.Some? && r'.Some? {
        var x, y := r.value, r'.value;
        PickUnique(maps.bits, maps.maps[x.order].scanWords, starts[x.order], IndicesAt(free, x.order), x.idx, y.idx);
      }
    }

    ghost function Starts(n: nat): (s: seq<nat>)
      requires maps.Valid() && n <= maps.maxOrder + 1
      reads maps, maps.repr
      ensures |s| == n && forall o :: 0 <= o < n ==> s[o] == maps.Start(o)
    {
      if n == 0 then [] else Starts(n - 1) + [maps.Start(n - 1)]
    }

    /** `try_allocate_from_orders` (src/buddy.rs:281-298): with a loaded summary or without. */
    method TryAllocateFromOrders(target: nat, summary: Option<nat>) returns (r: Option<Block>)
      requires Shape() && maps.Valid() && SummaryExact(bits, nonemptyOrders, maps.free)
      requires summary.Some? ==> SummaryExact(bits, summary.value, maps.free)
      modifies maps.repr, this`nonemptyOrders
      ensures maps.Valid() && SummaryExact(bits, nonemptyOrders, maps.free)
      ensures IsSearch(target, old(maps.free), old(Starts(maxOrder + 1)), r)
      ensures r.None? ==> maps.free == old(maps.free)
      ensures r.Some? ==> r.value in old(maps.free) && maps.free == old(maps.free) - {r.value}
    {
      ghost var free, starts := maps.free, Starts(maxOrder + 1);
      var order := target;
      while order <= maxOrder
        invariant target <= order
        invariant maps.Valid() && maps.free == free
        invariant SummaryExact(bits, nonemptyOrders, free)
        invariant forall o :: target <= o < order && o <= maxOrder ==> EmptyAt(free, o)
        invariant forall o :: order <= o <= maxOrder ==> maps.Start(o) == starts[o]
        decreases maxOrder + 1 - order
      {
        if summary.None? || Bit(summary.value, order) {
          var claimed := maps.TryAlloc(order);
          if claimed.Some? {
            r := Some(Block(order, claimed.value));
            MaybeClearSummary(free, r.value);
            return;
          }
        }
        order := order + 1;
      }
      return None;
    }

    method SplitOnce(x: Block, ghost steps: nat) returns (left: Block)
      requires x !in live && Consistent(live + {x}, steps) && x.order > 0
      modifies maps.repr, this`nonemptyOrders
      ensures left == Left(x) && left !in live && Consistent(live + {left}, steps + 1)
    {
      hide Books, SummaryExact, OrderMaps.Valid, OrderMaps.Shape, Pow2, Units;
      ghost var free, net := maps.free, splits + steps - coalesces;
      BooksSplit(maxOrder, live, free, net, x);
      Publish(Right(x));
      left := Left(x);
      assert Books(maxOrder, live + {left}, maps.free, net + 1);
    }

    /** `split_down` (src/buddy.rs:300-327). */
    method SplitDown(x: Block, target: nat) returns (r: Block)
      requires x !in live && Consistent(live + {x}, 0) && target <= x.order
      modifies maps.repr, this`nonemptyOrders, this`splits
      ensures r !in live && Consistent(live + {r}, 0)
      ensures r == Leftmost(x, target) && splits == old(splits) + (x.order - target)
    {
      hide Books, SummaryExact, OrderMaps.Valid, OrderMaps.Shape, Pow2, Units;
      r := x;
      var steps := 0;
      while r.order > target
        invariant r !in live && Consistent(live + {r}, steps)
        invariant target <= r.order && r.order + steps == x.order && Leftmost(r, target) == Leftmost(x, target)
        invariant splits == old(splits)
        decreases r.order
      {
        r := SplitOnce(r, steps);
        steps := steps + 1;
      }
      splits := splits + steps;
    }

    /** `zeroize_region`: overwrites the bytes with zeros. */
    method ZeroizeRegion(offset: nat, len: nat)
      requires offset + len <= mem.Length
      modifies mem
      ensures Zeros(mem[..], offset, len)
      ensures forall j :: 0 <= j < mem.Length && !(offset <= j < offset + len) ==> mem[j] == old(mem[j])
    {
      var i := 0;
      while i < len
        invariant 0 <= i <= len
        invariant forall j :: offset <= j < offset + i ==> mem[j] == 0
        invariant forall j :: 0 <= j < mem.Length && !(offset <= j < offset + len) ==> mem[j] == old(mem[j])
      {
        mem[offset + i] := 0;
        i := i + 1;
      }
    }

    /** The init policy on the allocation path (src/buddy.rs:205-220): the block is zeroed
        unless every zeroed bit of its range is set. */
    method InitBlock(x: Block)
      requires Shape() && MemoryOk() && Inside(x, Top(maxOrder)) && Avoids(live, x)
      modifies mem
      ensures zeroPolicy ==> Zeros(mem[..], Offset(minBlock, x), BlockSize(minBlock, x))
      ensures zeroPolicy ==> Scrubbed(mem[..], minBlock, live + {x}, zeroed.Members())
      ensures forall j :: 0 <= j < mem.Length && !InBlock(j, x) ==> mem[j] == old(mem[j])
      ensures !zeroPolicy ==> mem[..] == old(mem[..])
    {
      if zeroPolicy {
        BlockFits(x, maxOrder);
        var lo := x.idx * Pow2(x.order);
        var allSet := zeroed.AllSetInRange(lo, lo + Pow2(x.order));
        if !allSet {
          BytesFit(minBlock, maxOrder, x);
          Pow2Add(maxOrder, minExp);
          ZeroizeRegion(Offset(minBlock, x), BlockSize(minBlock, x));
        } else {
          forall u: nat | Inside(Block(0, u), x) ensures UnitZero(mem[..], minBlock, u) {
            UnitInside(u, x);
            AvoidsParts(live, Block(0, u), x);
          }
          BlockZeroFromUnits(mem[..], minBlock, x);
        }
        ScrubbedAfterWrite(old(mem[..]), mem[..], minBlock, live, zeroed.Members(), x);
      }
    }

    /** Claim and split (src/buddy.rs:193-201): the summary-guided search, the full scan if
        that finds nothing, then `split_down`. */
    method Carve(target: nat) returns (r: Option<Block>)
      requires Consistent(live, 0)
      modifies maps.repr, this`nonemptyOrders, this`splits
      ensures r.None? <==> !Available(old(maps.free), target)
      ensures r.None? ==> Consistent(live, 0) && maps.free == old(maps.free) && splits == old(splits)
      ensures r.Some? ==> r.value !in live && Consistent(live + {r.value}, 0)
      ensures r.Some? ==> Served(target, old(maps.free), old(Starts(maxOrder + 1)), r.value)
    {
      hide Books, SummaryExact, OrderMaps.Valid, OrderMaps.Shape, Pow2, Units;
      ghost var free, net := maps.free, splits - coalesces;
      var found := Find(target);
      if found.None? {
        NothingFound(target, free, net);
        return None;
      }
      BooksTake(maxOrder, live, free, net, found.value);
      assert Books(maxOrder, live + {found.value}, maps.free, net);
      var x := SplitDown(found.value, target);
      return Some(x);
    }

    /** The summary-guided search, then the full scan (src/buddy.rs:193-195). */
    method Find(target: nat) returns (r: Option<Block>)
      requires Shape() && maps.Valid() && SummaryExact(bits, nonemptyOrders, maps.free)
      modifies maps.repr, this`nonemptyOrders
      ensures maps.Valid() && SummaryExact(bits, nonemptyOrders, maps.free)
      ensures IsSearch(target, old(maps.free), old(Starts(maxOrder + 1)), r)
      ensures r.None? ==> maps.free == old(maps.free)
      ensures r.Some? ==> r.value in old(maps.free) && maps.free == old(maps.free) - {r.value}
    {
      hide Books, SummaryExact, OrderMaps.Valid, OrderMaps.Shape, Pow2, Units;
      r := TryAllocateFromOrders(target, Some(nonemptyOrders));
      if r.None? {
        r := TryAllocateFromOrders(target, None);
        if r.Some? {
          NotEmptyAt(old(maps.free), r.value);
          assert false;
        }
      }
    }

    lemma NothingFound(target: nat, free: set<Block>, net: int)
      requires Books(maxOrder, live, free, net)
      requires forall o: nat :: target <= o <= maxOrder ==> EmptyAt(free, o)
      ensures !Available(free, target)
    {
      BooksAvailable(maxOrder, live, free, net, target);
      if Available(free, target) {
        var x :| x in free && x.order >= target;
        NotEmptyAt(free, x);
        assert false;
      }
    }

    /** `x` is cut from the left of the block the search finds. */
    ghost predicate Served(target: nat, free: set<Block>, starts: seq<nat>, x: Block)
    {
      exists y: Block :: IsSearch(target, free, starts, Some(y)) && x == Leftmost(y, target)
    }

    /** `allocate` (src/buddy.rs:187-239) in a release build. A request beyond half the word
        range wraps past every order and is reported as a full arena; every other request is
        refused as too large exactly when it exceeds the arena, reported as a full arena
        exactly when every aligned block of its order meets a live block, and otherwise
        served from the block the search finds. */
    method Allocate(len: nat) returns (r: AllocResult)
      requires Valid() && 0 < len < Pow2(bits)
      modifies Repr()
      ensures Valid()
      ensures r.RequestTooLarge? <==> Pow2(minExp + maxOrder) < len <= Pow2(bits - 1)
      ensures r.ArenaFull? <==>
              || Pow2(bits - 1) < len
              || (len <= Pow2(minExp + maxOrder) && !Fits(Top(maxOrder), old(live), RequestOrder(minExp, len)))
      ensures r.Allocated? ==>
              && LeastOrder(minExp, len, r.block.order)
              && Served(r.block.order, old(maps.free), old(Starts(maxOrder + 1)), r.block)
              && r.block !in old(live) && live == old(live) + {r.block}
              && r.capacity == (if capCapacity && len < BlockSize(minBlock, r.block) then len
                                else BlockSize(minBlock, r.block))
              && allocationsOk == old(allocationsOk) + 1 && allocationsFailed == old(allocationsFailed)
      ensures r.Allocated? && zeroPolicy ==> Zeros(mem[..], Offset(minBlock, r.block), BlockSize(minBlock, r.block))
      ensures r.Allocated? ==> forall j :: 0 <= j < mem.Length && !InBlock(j, r.block) ==> mem[j] == old(mem[j])
      ensures !zeroPolicy ==> mem[..] == old(mem[..])
      ensures !r.Allocated? ==>
              && live == old(live) && maps.free == old(maps.free) && splits == old(splits) && mem[..] == old(mem[..])
              && allocationsOk == old(allocationsOk) && allocationsFailed == old(allocationsFailed) + 1
      ensures coalesces == old(coalesces) && frees == old(frees)
    {
      hide Books, SummaryExact, OrderMaps.Valid, OrderMaps.Shape, Pow2, Units;
      hide Offset, BlockSize, LeastOrder, Fits, Available, Served;
      var order := ChooseOrder(len);
      if order.None? {
        allocationsFailed := allocationsFailed + 1;
        return RequestTooLarge;
      }
      r := Serve(order.value, len);
    }

    /** Search, split and grant for a request of known order (src/buddy.rs:193-238). */
    method Serve(order: nat, len: nat) returns (r: AllocResult)
      requires Valid()
      modifies Repr()
      ensures Valid() && !r.RequestTooLarge? && coalesces == old(coalesces) && frees == old(frees)
      ensures r.ArenaFull? <==> !Fits(Top(maxOrder), old(live), order)
      ensures order > maxOrder ==> r.ArenaFull?
      ensures r.ArenaFull? ==>
              && live == old(live) && maps.free == old(maps.free) && splits == old(splits) && mem[..] == old(mem[..])
              && allocationsOk == old(allocationsOk) && allocationsFailed == old(allocationsFailed) + 1
      ensures r.Allocated? ==>
              && r.block.order == order && Served(order, old(maps.free), old(Starts(maxOrder + 1)), r.block)
              && r.block !in old(live) && live == old(live) + {r.block}
              && r.capacity == (if capCapacity && len < BlockSize(minBlock, r.block) then len
                                else BlockSize(minBlock, r.block))
              && allocationsOk == old(allocationsOk) + 1 && allocationsFailed == old(allocationsFailed)
              && (zeroPolicy ==> Zeros(mem[..], Offset(minBlock, r.block), BlockSize(minBlock, r.block)))
              && forall j :: 0 <= j < mem.Length && !InBlock(j, r.block) ==> mem[j] == old(mem[j])
      ensures !zeroPolicy ==> mem[..] == old(mem[..])
    {
      hide Books, SummaryExact, OrderMaps.Valid, OrderMaps.Shape, Pow2, Units, Offset, BlockSize, Fits, Available;
      BooksAvailable(maxOrder, live, maps.free, splits - coalesces, order);
      var carved := Carve(order);
      if carved.None? {
        allocationsFailed := allocationsFailed + 1;
        return ArenaFull;
      }
      r := Grant(carved.value, len);
    }

    /** The order of a request, past the last order when rounding wraps. */
    method ChooseOrder(len: nat) returns (order: Option<nat>)
      requires Shape() && 0 < len < Pow2(bits)
      ensures order.None? <==> Pow2(minExp + maxOrder) < len <= Pow2(bits - 1)
      ensures order.Some? ==>
                if len <= Pow2(bits - 1)
                then && order.value <= maxOrder && order.value == RequestOrder(minExp, len)
                     && LeastOrder(minExp, len, order.value)
                else order.value > maxOrder
    {
      Pow2Add(minExp, maxOrder);
      OrderForRequestRefusesIff(bits, minExp, maxOrder, len);
      if len <= Pow2(bits - 1) {
        OrderForRequestLeast(bits, minExp, maxOrder, len);
      }
      var o := OrderForRequest(bits, minBlock, minBlock * Pow2(maxOrder), len);
      order := if o.None? then None else Some(o.value);
    }

    /** Initialisation, counters and the buffer handed out (src/buddy.rs:205-238). */
    method Grant(x: Block, len: nat) returns (r: AllocResult)
      requires x !in live && Consistent(live + {x}, 0) && MemoryOk() && bytesLive == minBlock * Units(live)
      modifies this`live, this`allocationsOk, this`bytesLive, mem
      ensures Valid() && live == old(live) + {x}
      ensures r == Allocated(x, if capCapacity && len < BlockSize(minBlock, x) then len else BlockSize(minBlock, x))
      ensures zeroPolicy ==> Zeros(mem[..], Offset(minBlock, x), BlockSize(minBlock, x))
      ensures forall j :: 0 <= j < mem.Length && !InBlock(j, x) ==> mem[j] == old(mem[j])
      ensures !zeroPolicy ==> mem[..] == old(mem[..])
      ensures allocationsOk == old(allocationsOk) + 1
    {
      hide Books, SummaryExact, OrderMaps.Valid, OrderMaps.Shape, Pow2, Units, Offset, BlockSize;
      BooksHeld(maxOrder, live, maps.free, splits - coalesces, x);
      InitBlock(x);
      BytesAdd(minBlock, live, x);
      var size := BlockSize(minBlock, x);
      allocationsOk, bytesLive, live := allocationsOk + 1, bytesLive + size, live + {x};
      return Allocated(x, if capCapacity && len < size then len else size);
    }

    // ----- release

    /** One turn of the climb (src/buddy.rs:719-726). */
    method ClimbOnce(h: Block) returns (won: bool)
      requires h !in live && Consistent(live + {h}, 0) && h.order < maxOrder
      modifies maps.repr, this`nonemptyOrders, this`coalesces
      ensures won <==> Buddy(h) in old(maps.free)
      ensures won ==> Parent(h) !in live && Consistent(live + {Parent(h)}, 0) && coalesces == old(coalesces) + 1
      ensures !won ==> Consistent(live + {h}, 0) && maps.free == old(maps.free) && coalesces == old(coalesces)
    {
      hide Books, SummaryExact, OrderMaps.Valid, OrderMaps.Shape, Pow2, Units;
      ghost var free, net := maps.free, splits - coalesces;
      BooksHeld(maxOrder, live, free, net, h);
      won := maps.TryClaim(Buddy(h));
      if won {
        BooksMerge(maxOrder, live, free, net, h);
        MaybeClearSummary(free, Buddy(h));
        coalesces := coalesces + 1;
      } else {
        assert maps.free == free;
      }
    }

    /** `release_block` (src/buddy.rs:703-736) after the policy scrub: climb while the buddy
        can be claimed, then publish. The order of the published block is what the waiters
        are woken with. */
    method ReleaseBlock(x: Block) returns (h: Block)
      requires x !in live && Consistent(live + {x}, 0)
      modifies maps.repr, this`nonemptyOrders, this`coalesces
      ensures Consistent(live, 0)
      ensures Inside(x, h) && h in maps.free && coalesces == old(coalesces) + (h.order - x.order)
    {
      hide Books, SummaryExact, OrderMaps.Valid, OrderMaps.Shape, Pow2, Units;
      h := x;
      while h.order < maxOrder
        invariant h !in live && Consistent(live + {h}, 0) && Inside(x, h)
        invariant coalesces == old(coalesces) + (h.order - x.order)
        decreases maxOrder - h.order
      {
        var won := ClimbOnce(h);
        if !won { break; }
        InsideTrans(x, h, Parent(h));
        h := Parent(h);
      }
      ghost var free, net := maps.free, splits - coalesces;
      BooksHeld(maxOrder, live, free, net, h);
      BooksPublish(maxOrder, live, free, net, h);
      Publish(h);
      assert Books(maxOrder, live, maps.free, net);
    }

    /** The block is all zero and each of its minimum blocks is marked. */
    ghost predicate ScrubbedBlock(x: Block)
      requires zeroed.Valid()
      reads mem, zeroed, zeroed.words
    {
      && Zeros(mem[..], Offset(minBlock, x), BlockSize(minBlock, x))
      && forall u: nat :: Inside(Block(0, u), x) ==> u in zeroed.Members()
    }

    /** The scrub on the return path (src/buddy.rs:704-716). */
    method ScrubBlock(x: Block)
      requires Shape() && MemoryOk() && x in live && Inside(x, Top(maxOrder))
      modifies mem, zeroed.words
      ensures zeroed.Valid()
      ensures zeroPolicy ==> Scrubbed(mem[..], minBlock, live - {x}, zeroed.Members()) && ScrubbedBlock(x)
      ensures forall j :: 0 <= j < mem.Length && !InBlock(j, x) ==> mem[j] == old(mem[j])
      ensures !zeroPolicy ==> mem[..] == old(mem[..])
    {
      if zeroPolicy {
        BytesFit(minBlock, maxOrder, x);
        Pow2Add(maxOrder, minExp);
        ZeroizeRegion(Offset(minBlock, x), BlockSize(minBlock, x));
        BlockFits(x, maxOrder);
        var lo := x.idx * Pow2(x.order);
        zeroed.SetRange(lo, lo + Pow2(x.order));
        forall u: nat ensures u in zeroed.Members() <==> u in old(zeroed.Members()) || Inside(Block(0, u), x) {
          UnitInside(u, x);
        }
        ScrubbedAfterReturn(old(mem[..]), mem[..], minBlock, live, old(zeroed.Members()), zeroed.Members(), x);
      }
    }

    ghost predicate InBlock(j: int, x: Block)
    {
      Offset(minBlock, x) <= j < Offset(minBlock, x) + BlockSize(minBlock, x)
    }

    /** Returning a buddy allocation (src/allocation.rs:40-43): counters, scrub, climb, publish.
        `h` is the block published, whose order the waiters are woken with. */
    method Release(x: Block) returns (h: Block)
      requires Valid() && x in live
      modifies Repr()
      ensures Valid() && live == old(live) - {x}
      ensures Inside(x, h) && h in maps.free && coalesces == old(coalesces) + (h.order - x.order)
      ensures frees == old(frees) + 1 && splits == old(splits)
      ensures allocationsOk == old(allocationsOk) && allocationsFailed == old(allocationsFailed)
      ensures forall j :: 0 <= j < mem.Length && !InBlock(j, x) ==> mem[j] == old(mem[j])
      ensures !zeroPolicy ==> mem[..] == old(mem[..])
      ensures zeroPolicy ==> ScrubbedBlock(x)
    {
      hide Books, SummaryExact, OrderMaps.Valid, OrderMaps.Shape, Pow2, Units, ScrubbedBlock;
      assert live - {x} + {x} == live;
      BooksHeld(maxOrder, live - {x}, maps.free, splits - coalesces, x);
      BytesAdd(minBlock, live - {x}, x);
      frees, bytesLive := frees + 1, bytesLive - BlockSize(minBlock, x);
      ScrubBlock(x);
      live := live - {x};
      h := ReleaseBlock(x);
    }

    /** A holder writes into its block. */
    method WriteByte(x: Block, at: nat, v: Byte)
      requires Valid() && x in live && at < BlockSize(minBlock, x) && Offset(minBlock, x) + at < mem.Length
      modifies mem
      ensures Valid()
      ensures mem[..] == old(mem[..])[Offset(minBlock, x) + at := v]
    {
      hide Books, SummaryExact, OrderMaps.Valid, OrderMaps.Shape, Pow2, Units;
      hide Bitmap.Valid, Bitmap.Members, Scrubbed, Offset, BlockSize;
      mem[Offset(minBlock, x) + at] := v;
      assert live + {x} == live;
      if zeroPolicy { ScrubbedAfterWrite(old(mem[..]), mem[..], minBlock, live, zeroed.Members(), x); }
    }

    /** `largest_free_block` (src/buddy.rs:745-752). */
    method LargestFreeBlock() returns (r: nat)
      requires Valid()
      ensures IsLargest(minExp, maps.free, r)
    {
      hide Books, SummaryExact, OrderMaps.Valid, OrderMaps.Shape, Pow2, Units;
      BooksAvailable(maxOrder, live, maps.free, splits - coalesces, 0);
      var order := maxOrder + 1;
      while order > 0
        invariant order <= maxOrder + 1
        invariant forall x :: x in maps.free ==> x.order < order
      {
        order := order - 1;
        var any := maps.AnyFree(order);
        if any {
          LargestFound(minExp, maps.free, order);
          return minBlock * Pow2(order);
        }
      }
      return 0;
    }

    /** A request no larger than the arena is reported as a full arena exactly when it exceeds
        what `largest_free_block` (src/buddy.rs:745-752) returns at that moment. */
    method AllocateOrLargest(len: nat) returns (largest: nat, r: AllocResult)
      requires Valid() && 0 < len <= Pow2(minExp + maxOrder)
      modifies Repr()
      ensures Valid() && !r.RequestTooLarge? && (r.ArenaFull? <==> len > largest)
      ensures IsLargest(minExp, old(maps.free), largest)
    {
      hide Books, SummaryExact, OrderMaps.Valid, OrderMaps.Shape, Pow2, Units, LeastOrder, IsLargest, Fits, Available;
      largest := LargestFreeBlock();
      Pow2Monotone(minExp + maxOrder, bits - 1);
      OrderForRequestLeast(bits, minExp, maxOrder, len);
      UnavailableIffAboveLargest(minExp, maps.free, len, RequestOrder(minExp, len), largest);
      BooksAvailable(maxOrder, live, maps.free, splits - coalesces, RequestOrder(minExp, len));
      Pow2Step(bits - 1);
      r := Allocate(len);
    }

    // ----- histories

    /** Allocating and returning at once restores the bitmaps and the summary. */
    method AllocateThenRelease(len: nat) returns (r: AllocResult)
      requires Valid() && 0 < len < Pow2(bits)
      modifies Repr()
      ensures Valid() && live == old(live)
      ensures maps.free == old(maps.free) && nonemptyOrders == old(nonemptyOrders)
      ensures splits - coalesces == old(splits - coalesces) && bytesLive == old(bytesLive)
    {
      hide Books, SummaryExact, OrderMaps.Valid, OrderMaps.Shape, Pow2, Units;
      hide ScrubbedBlock, Served, Fits, LeastOrder, Offset, BlockSize, Zeros, Inside;
      ghost var word, free, net := nonemptyOrders, maps.free, splits - coalesces;
      r := Allocate(len);
      if r.Allocated? {
        var h := Release(r.block);
        assert live == old(live);
      }
      HistoryIndependence(bits, maxOrder, live, free, net, word, maps.free, splits - coalesces, nonemptyOrders);
    }

    /** Returning all live blocks, in any order, leaves the initial single block. */
    method ReleaseAll(xs: seq<Block>)
      requires Valid()
      requires forall i, j :: 0 <= i < j < |xs| ==> xs[i] != xs[j]
      requires forall x :: x in live <==> x in xs
      modifies Repr()
      ensures Valid() && live == {} && bytesLive == 0
      ensures maps.free == {Top(maxOrder)} && nonemptyOrders == Pow2(maxOrder) && splits == coalesces
    {
      hide Books, SummaryExact, OrderMaps.Valid, OrderMaps.Shape, Pow2;
      var i := 0;
      while i < |xs|
        invariant 0 <= i <= |xs|
        invariant Valid()
        invariant forall x :: x in live <==> x in xs[i..]
      {
        assert xs[i] in xs[i..];
        var h := Release(xs[i]);
        i := i + 1;
      }
      assert live == {};
      BooksInitial(maxOrder);
      InitialSummary(bits, maxOrder);
      HistoryIndependence(bits, maxOrder, {}, maps.free, splits - coalesces, nonemptyOrders,
                          {Top(maxOrder)}, 0, Pow2(maxOrder));
    }
  }

  lemma InitialSummary(bits: nat, maxOrder: nat)
    requires maxOrder < bits
    ensures SummaryExact(bits, Pow2(maxOrder), {Top(maxOrder)})
  {
    Pow2Monotone(maxOrder, bits);
    forall o: nat ensures Bit(Pow2(maxOrder), o) <==> !EmptyAt({Top(maxOrder)}, o) {
      Pow2Bit(maxOrder, o);
      assert Top(maxOrder) in {Top(maxOrder)};
    }
  }

  /** `r` is the size of the largest free block, zero when there is none. */
  ghost predicate IsLargest(minExp: nat, free: set<Block>, r: nat)
  {
    if free == {} then r == 0
    else exists x :: x in free && r == Pow2(minExp + x.order) && forall y :: y in free ==> y.order <= x.order
  }

  lemma LargestFound(minExp: nat, free: set<Block>, order: nat)
    requires !EmptyAt(free, order) && forall x :: x in free ==> x.order <= order
    ensures IsLargest(minExp, free, Pow2(minExp) * Pow2(order))
  {
    Pow2Add(minExp, order);
    var x :| x in free && x.order == order;
  }

  /** Nothing can serve a request exactly when it exceeds the largest free block. */
  lemma UnavailableIffAboveLargest(minExp: nat, free: set<Block>, len: nat, k: nat, largest: nat)
    requires len > 0 && LeastOrder(minExp, len, k) && IsLargest(minExp, free, largest)
    ensures !Available(free, k) <==> len > largest
  {
    if free != {} {
      var x :| x in free && largest == Pow2(minExp + x.order) && forall y :: y in free ==> y.order <= x.order;
      if x.order >= k {
        Pow2Monotone(minExp + k, minExp + x.order);
        assert Available(free, k);
      } else {
        Pow2Monotone(minExp + x.order, minExp + k - 1);
      }
    }
  }

  /** The free bitmaps, the summary word and the difference of splits and coalesces depend
      on the live blocks alone, not on the history that led to them. */
  lemma HistoryIndependence(bits: nat, maxOrder: nat, live: set<Block>,
                            free: set<Block>, net: int, word: nat, free': set<Block>, net': int, word': nat)
    requires Books(maxOrder, live, free, net) && SummaryExact(bits, word, free)
    requires Books(maxOrder, live, free', net') && SummaryExact(bits, word', free')
    ensures free == free' && net == net' && word == word'
  {
    CanonicalUnique(Top(maxOrder), live, free, free');
    forall o: nat | o < bits ensures Bit(word, o) <==> Bit(word', o) {
      assert Bit(word, o) <==> !EmptyAt(free, o);
    }
    SameBitsSameWord(bits, word, word');
  }
}
