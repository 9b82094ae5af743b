/** The per-order bitmaps of a buddy arena (`free_bitmaps` of src/buddy.rs) as one set of blocks. */
module FreeMaps {
  import opened Words
  import opened Bitmaps
  import opened Blocks

  ghost function IndicesAt(free: set<Block>, order: nat): (r: set<nat>)
    ensures forall i: nat :: i in r <==> Block(order, i) in free
  {
    set x | x in free && x.order == order :: x.idx
  }

  ghost predicate EmptyAt(free: set<Block>, order: nat)
  {
    forall x :: x in free ==> x.order != order
  }

  lemma NotEmptyAt(free: set<Block>, x: Block)
    requires x in free
    ensures !EmptyAt(free, x.order)
  {
  }

  class OrderMaps {
    const bits: nat
    const maxOrder: nat
    const maps: seq<Bitmap>
    ghost const repr: set<object>
    /** The free blocks of all orders. */
    ghost var free: set<Block>

    ghost predicate Shape()
    {
      && maxOrder < bits && |maps| == maxOrder + 1
      && (forall o :: 0 <= o <= maxOrder ==> maps[o].bits == bits && maps[o].slotCount == Pow2(maxOrder - o))
      && (forall o, p :: 0 <= o < p <= maxOrder ==> maps[o] != maps[p] && maps[o].words != maps[p].words)
      && (forall o :: 0 <= o <= maxOrder ==> maps[o] in repr && maps[o].words in repr)
    }

    ghost predicate Valid()
      reads this, repr
    {
      && this in repr && Shape()
      && (forall o :: 0 <= o <= maxOrder ==> maps[o].Valid())
      && (forall x :: x in free <==> x.order <= maxOrder && x.idx in maps[x.order].Members())
    }

    /** Where an uncontended scan of an order starts. */
    ghost function Start(o: nat): (r: nat)
      requires Valid() && o <= maxOrder
      reads this, repr
      ensures r < maps[o].scanWords
    {
      maps[o].Start()
    }

    /** One empty bitmap per order, with `blocks_at_order` slots (src/buddy.rs:487-491). */
    constructor (bits: nat, maxOrder: nat)
      requires maxOrder < bits
      ensures Valid() && fresh(repr) && this.bits == bits && this.maxOrder == maxOrder
      ensures free == {}
    {
      var ms: seq<Bitmap> := [];
      ghost var rs: set<object> := {};
      while |ms| <= maxOrder
        invariant |ms| <= maxOrder + 1
        invariant forall o :: 0 <= o < |ms| ==> fresh(ms[o]) && fresh(ms[o].words) && ms[o].Valid()
        invariant forall o :: 0 <= o < |ms| ==>
                    ms[o].bits == bits && ms[o].slotCount == Pow2(maxOrder - o) && ms[o].Members() == {}
        invariant fresh(rs) && forall o :: 0 <= o < |ms| ==> ms[o] in rs && ms[o].words in rs
        invariant forall o, p :: 0 <= o < p < |ms| ==> ms[o] != ms[p] && ms[o].words != ms[p].words
        decreases maxOrder + 1 - |ms|
      {
        Pow2Monotone(maxOrder - |ms|, bits);
        var b := new Bitmap(bits, Pow2(maxOrder - |ms|), false);
        ms, rs := ms + [b], rs + {b, b.words};
      }
      this.bits, this.maxOrder, this.maps, this.repr, this.free := bits, maxOrder, ms, rs + {this}, {};
    }

    method Publish(x: Block)
      requires Valid() && Inside(x, Top(maxOrder)) && x !in free
      modifies repr
      ensures Valid() && free == old(free) + {x}
    {
      InsideTop(x, maxOrder);
      maps[x.order].Free(x.idx);
      assert forall o :: 0 <= o <= maxOrder && o != x.order ==>
        maps[o].Valid() && maps[o].Members() == old(maps[o].Members());
      free := free + {x};
    }

    method TryClaim(x: Block) returns (won: bool)
      requires Valid() && Inside(x, Top(maxOrder))
      modifies repr
      ensures Valid() && free == old(free) - {x}
      ensures won <==> x in old(free)
    {
      InsideTop(x, maxOrder);
      won := maps[x.order].TryClaimExact(x.idx);
      assert forall o :: 0 <= o <= maxOrder && o != x.order ==>
        maps[o].Valid() && maps[o].Members() == old(maps[o].Members());
      free := free - {x};
    }

    method TryAlloc(order: nat) returns (r: Option<nat>)
      requires Valid() && order <= maxOrder
      modifies repr
      ensures Valid()
      ensures r.None? <==> EmptyAt(old(free), order)
      ensures r.None? ==> free == old(free)
      ensures r.Some? ==> free == old(free) - {Block(order, r.value)}
      ensures r.Some? ==> Picked(old(free), old(Start(order)), Block(order, r.value))
      ensures forall o :: 0 <= o <= maxOrder && o != order ==> Start(o) == old(Start(o))
    {
      ghost var members, start := maps[order].Members(), Start(order);
      r := maps[order].TryAlloc();
      assert forall o :: 0 <= o <= maxOrder && o != order ==>
        maps[o].Valid() && maps[o].Members() == old(maps[o].Members()) && maps[o].cursor == old(maps[o].cursor);
      if r.Some? {
        PickedFrom(free, members, start, order, r.value);
        free := free - {Block(order, r.value)};
      } else {
        assert EmptyAt(free, order) <==> members == {};
      }
    }

    lemma PickedFrom(free: set<Block>, members: set<nat>, start: nat, order: nat, i: nat)
      requires Shape() && order <= maxOrder && start < maps[order].scanWords
      requires forall j: nat :: j in members <==> Block(order, j) in free
      requires IsPick(bits, maps[order].scanWords, start, members, i)
      ensures Picked(free, start, Block(order, i)) && !EmptyAt(free, order)
    {
      assert members == IndicesAt(free, order);
    }

    /** `x` is what a scan of its order starting at word `start` picks. */
    ghost predicate Picked(free: set<Block>, start: nat, x: Block)
    {
      && bits > 0 && x.order < |maps| && start < maps[x.order].scanWords
      && x in free
      && IsPick(bits, maps[x.order].scanWords, start, IndicesAt(free, x.order), x.idx)
    }

    method AnyFree(order: nat) returns (r: bool)
      requires Valid() && order <= maxOrder
      ensures r <==> !EmptyAt(free, order)
    {
      r := maps[order].AnyFree();
      if r {
        ghost var i :| i in maps[order].Members();
        assert Block(order, i) in free;
      }
    }
  }
}
