/** The buddy arena together with its waiters (src/async_alloc.rs:617-632, src/buddy.rs:703-736):
    an allocation that finds no block parks after it has queued itself, and every return of a
    block wakes with the order it published.
 */
module AsyncBuddy {
  import opened Words
  import opened Bitmaps
  import opened Geometry
  import opened Blocks
  import opened FreeMaps
  import opened BuddyArenas
  import opened NotifyWaiters
  import W = Waiters

  /** Blocks handed out, free blocks with their split balance, and the waiters. */
  datatype World = World(maxOrder: nat, live: set<Block>, free: set<Block>, net: int, waiters: W.State)

  datatype Act = Grant(x: Block) | Return(x: Block, h: Block) | Waiter(e: W.Event)

  ghost predicate WorldOk(w: World)
  {
    Books(w.maxOrder, w.live, w.free, w.net) && W.Inv(w.waiters)
  }

  /** A grant takes a block; a return publishes some block that contains the returned one and
      wakes with its order; a waiter operation leaves the blocks alone. */
  ghost predicate Next(a: World, act: Act, b: World)
  {
    && b.maxOrder == a.maxOrder && WorldOk(b) && |a.waiters.slots| > 0
    && match act
       case Grant(x) => x !in a.live && b.live == a.live + {x} && b.waiters == a.waiters
       case Return(x, h) =>
         x in a.live && b.live == a.live - {x} && h in b.free && Inside(x, h) &&
         b.waiters == W.Apply(a.waiters, W.Wake(h.order))
       case Waiter(e) => b.live == a.live && b.free == a.free && b.net == a.net && b.waiters == W.Apply(a.waiters, e)
  }

  ghost predicate IsRun(ws: seq<World>, acts: seq<Act>)
  {
    && |ws| == |acts| + 1 && WorldOk(ws[0])
    && forall i :: 0 <= i < |acts| ==> Next(ws[i], acts[i], ws[i + 1])
  }

  ghost predicate Parked(s: W.State, k: nat, id: nat)
  {
    k < |s.slots| && id in s.slots[k].queue && W.IsLive(s.entries, id)
  }

  /** A wake with order `freed` considers order `k`, or the streak ban passes it over in
      favour of another order. */
  ghost predicate Considers(s: W.State, freed: nat, k: nat)
    requires |s.slots| > 0
  {
    k in W.Candidates(s, freed)
    || (W.StreakCount(s.streak) >= W.MAX_CONSECUTIVE && W.LastWinner(s.streak) == k && W.Candidates(s, freed) != [])
  }

  /** The step that first makes a request of order `k` possible returns a block, and its wake
      considers a waiter parked at that order. */
  ghost predicate Answers(a: World, act: Act, b: World, k: nat)
  {
    !Available(a.free, k) && Available(b.free, k) && act.Return? && act.h.order >= k
    && |a.waiters.slots| > 0 && Considers(a.waiters, act.h.order, k)
  }

  /** Only a return makes a request possible, and it wakes with an order that can serve it. */
  lemma BecomesAvailable(a: World, act: Act, b: World, k: nat)
    requires WorldOk(a) && Next(a, act, b) && !Available(a.free, k) && Available(b.free, k)
    ensures act.Return? && act.h.order >= k
  {
    hide Books, W.Inv, W.Apply, Available, Inside;
    match act {
      case Grant(x) =>
        TakingKeepsScarce(a.maxOrder, a.live, a.free, a.net, x, b.free, b.net, k);
        assert false;
      case Return(x, h) =>
        assert a.live == b.live + {x};
        ReturnPublishesEnough(a.maxOrder, b.live, x, a.free, a.net, b.free, b.net, h, k);
      case Waiter(_) =>
        assert false;
    }
  }

  lemma ParkedConsidered(s: W.State, k: nat, id: nat, freed: nat)
    requires W.Inv(s) && Parked(s, k, id) && k <= freed
    ensures |s.slots| > 0 && Considers(s, freed, k)
  {
    hide W.Inv, W.Candidates;
    W.QueuedIsEligible(s, k, id);
    W.CandidatesExact(s, freed);
    var all := W.Collect(s, if freed < |s.slots| then freed + 1 else |s.slots|);
    assert k in all;
  }

  /** No wakeup is lost. Take any run over which an entry stays parked at order `k`: if no
      block of that order could be had at its start and one can be had at its end, some step
      in between answered it. */
  lemma {:induction false} NoLostWakeup(ws: seq<World>, acts: seq<Act>, k: nat, id: nat) returns (i: nat)
    requires IsRun(ws, acts) && !Available(ws[0].free, k) && Available(ws[|acts|].free, k)
    requires forall j :: 0 <= j < |ws| ==> Parked(ws[j].waiters, k, id)
    ensures i < |acts| && Answers(ws[i], acts[i], ws[i + 1], k)
  {
    hide WorldOk, Next, Parked, Available, Considers;
    var n := |acts| - 1;
    assert n >= 0;
    if Available(ws[n].free, k) {
      i := NoLostWakeup(ws[..n + 1], acts[..n], k, id);
    } else {
      i := n;
      RunOk(ws, acts, n);
      BecomesAvailable(ws[n], acts[n], ws[n + 1], k);
      WaitersOk(ws[n]);
      ParkedConsidered(ws[n].waiters, k, id, acts[n].h.order);
    }
  }

  lemma WaitersOk(w: World)
    requires WorldOk(w)
    ensures W.Inv(w.waiters)
  {
  }

  lemma RunOk(ws: seq<World>, acts: seq<Act>, i: nat)
    requires IsRun(ws, acts) && i < |ws|
    ensures WorldOk(ws[i])
  {
    if i > 0 { assert Next(ws[i - 1], acts[i - 1], ws[i]); }
  }

  // ----- waiters at one order

  ghost predicate Woken(s: W.State, id: nat)
  {
    id in s.entries && s.entries[id].state == W.WOKEN
  }

  /** `id` waits at position `i` of order `k` behind tombstones only, fewer than a wake pops. */
  ghost predicate First(s: W.State, k: nat, id: nat, i: nat)
  {
    W.QueuedAt(s, k, id, i) && i < W.MAX_POPS_PER_WAKE && W.LiveIn(s.entries, s.slots[k].queue[..i]) == {}
  }

  lemma FirstAdvanced(s: W.State, k: nat, id: nat, i: nat)
    requires W.Inv(s) && First(s, k, id, i)
    ensures W.Advanced(s, k, id, 7) && k < |s.slots|
  {
    hide W.Inv, W.Weight, W.Advanced;
    var w := W.StartsAdvanced(s, k, id, i);
    W.AdvancedWeaken(s, k, id, w, 7);
  }

  /** With waiters at its order only, the first in line is woken by any wake that can serve it. */
  lemma HighWakeDelivers(s: W.State, k: nat, id: nat, i: nat, freed: nat)
    requires W.Inv(s) && First(s, k, id, i) && W.SoleOrder(s, k) && k <= freed
    ensures Woken(W.Apply(s, W.Wake(freed)), id)
  {
    hide W.Inv, W.Apply, W.Candidates, W.Advanced, W.SoleOrder;
    FirstAdvanced(s, k, id, i);
    W.SoleWakeAdvances(s, freed, k, id, 7);
    W.AdvancedBelowZero(W.Apply(s, W.Wake(freed)), k, id, -1);
  }

  lemma WokenStays(a: World, act: Act, b: World, k: nat, id: nat)
    requires WorldOk(a) && Next(a, act, b) && Woken(a.waiters, id) && k < |a.waiters.slots|
    requires act.Waiter? ==> W.Spares(act.e, id)
    ensures Woken(b.waiters, id) && k < |b.waiters.slots|
  {
    hide W.Inv, Books, W.Apply, Inside;
    ActAdvances(a, act, b, k, id, -1);
    W.AdvancedBelowZero(b.waiters, k, id, -1);
  }

  lemma {:induction false} WokenStaysRun(ws: seq<World>, acts: seq<Act>, k: nat, id: nat)
    requires IsRun(ws, acts) && Woken(ws[0].waiters, id) && k < |ws[0].waiters.slots|
    requires forall j :: 0 <= j < |acts| && acts[j].Waiter? ==> W.Spares(acts[j].e, id)
    ensures Woken(ws[|acts|].waiters, id)
    decreases |acts|
  {
    hide WorldOk, Next, Woken;
    if acts != [] {
      RunOk(ws, acts, 1);
      assert Next(ws[0], acts[0], ws[1]);
      WokenStays(ws[0], acts[0], ws[1], k, id);
      RunTail(ws, acts);
      WokenStaysRun(ws[1..], acts[1..], k, id);
    }
  }

  lemma RunTail(ws: seq<World>, acts: seq<Act>)
    requires IsRun(ws, acts) && acts != []
    ensures IsRun(ws[1..], acts[1..]) && ws[1..][|acts| - 1] == ws[|acts|]
  {
    hide WorldOk, Next;
    RunOk(ws, acts, 1);
    forall i | 0 <= i < |acts[1..]| ensures Next(ws[1..][i], acts[1..][i], ws[1..][i + 1]) {
      assert Next(ws[i + 1], acts[i + 1], ws[i + 2]);
    }
  }

  /** Whoever parks because no block is large enough, first in line at the only order with
      waiters, is awake by the time one is: over any grants, returns and operations of other
      waiters, whatever was split and coalesced in between. */
  lemma ParkedThenWoken(ws: seq<World>, acts: seq<Act>, k: nat, id: nat, i: nat)
    requires IsRun(ws, acts) && First(ws[0].waiters, k, id, i)
    requires forall j :: 0 <= j < |acts| && acts[j].Waiter? ==> W.Spares(acts[j].e, id)
    requires forall j :: 0 <= j < |acts| && acts[j].Return? ==> W.SoleOrder(ws[j].waiters, k)
    requires !Available(ws[0].free, k) && Available(ws[|acts|].free, k)
    ensures Woken(ws[|acts|].waiters, id)
  {
    hide WorldOk, Next, Woken, First, Available;
    WaitersOk(ws[0]);
    FirstAdvanced(ws[0].waiters, k, id, i);
    AdvancedThenWoken(ws, acts, k, id);
  }

  lemma {:induction false} AdvancedThenWoken(ws: seq<World>, acts: seq<Act>, k: nat, id: nat)
    requires IsRun(ws, acts) && W.Advanced(ws[0].waiters, k, id, 7) && k < |ws[0].waiters.slots|
    requires forall j :: 0 <= j < |acts| && acts[j].Waiter? ==> W.Spares(acts[j].e, id)
    requires forall j :: 0 <= j < |acts| && acts[j].Return? ==> W.SoleOrder(ws[j].waiters, k)
    requires !Available(ws[0].free, k) && Available(ws[|acts|].free, k)
    ensures Woken(ws[|acts|].waiters, id)
    decreases |acts|
  {
    hide WorldOk, Next, Woken, Available, W.Advanced, W.SoleOrder, W.Spares;
    assert |acts| > 0;
    var a, act, b := ws[0], acts[0], ws[1];
    assert Next(a, act, b);
    RunTail(ws, acts);
    if Available(b.free, k) {
      AnswerWakes(a, act, b, k, id);
      WokenStaysRun(ws[1..], acts[1..], k, id);
    } else {
      ActAdvances(a, act, b, k, id, 7);
      forall j | 0 <= j < |acts[1..]| && acts[1..][j].Return? ensures W.SoleOrder(ws[1..][j].waiters, k) {
        assert acts[1..][j] == acts[j + 1] && ws[1..][j] == ws[j + 1];
      }
      AdvancedThenWoken(ws[1..], acts[1..], k, id);
    }
  }

  /** No step of a run moves a waiter back. */
  lemma ActAdvances(a: World, act: Act, b: World, k: nat, id: nat, w: int)
    requires WorldOk(a) && Next(a, act, b) && W.Advanced(a.waiters, k, id, w) && k < |a.waiters.slots|
    requires act.Waiter? ==> W.Spares(act.e, id)
    ensures W.Advanced(b.waiters, k, id, w) && k < |b.waiters.slots|
  {
    hide W.Inv, Books, W.Apply, Inside, W.Advanced;
    if act.Return? {
      W.StepAdvances(a.waiters, W.Wake(act.h.order), k, id, w);
    } else if act.Waiter? {
      W.StepAdvances(a.waiters, act.e, k, id, w);
    }
  }

  lemma AnswerWakes(a: World, act: Act, b: World, k: nat, id: nat)
    requires WorldOk(a) && Next(a, act, b) && W.Advanced(a.waiters, k, id, 7) && k < |a.waiters.slots|
    requires act.Return? ==> W.SoleOrder(a.waiters, k)
    requires !Available(a.free, k) && Available(b.free, k)
    ensures Woken(b.waiters, id) && k < |b.waiters.slots|
  {
    hide Books, W.Inv, W.Apply, Available, Inside, W.Advanced, W.SoleOrder;
    BecomesAvailable(a, act, b, k);
    W.SoleWakeAdvances(a.waiters, act.h.order, k, id, 7);
    W.AdvancedBelowZero(b.waiters, k, id, -1);
  }

  // ----- the operations

  ghost function WorldOf(arena: BuddyArena, waiters: BuddyWaiters): World
    reads arena, arena.maps, waiters
  {
    World(arena.maxOrder, arena.live, arena.maps.free, arena.splits - arena.coalesces, waiters.View())
  }

  ghost predicate Ready(arena: BuddyArena, waiters: BuddyWaiters)
    reads arena.Repr(), waiters
  {
    arena.Valid() && waiters.Valid() && |waiters.slots| == arena.maxOrder + 1 && waiters !in arena.Repr()
  }

  lemma ReadyWorld(arena: BuddyArena, waiters: BuddyWaiters)
    requires Ready(arena, waiters)
    ensures WorldOk(WorldOf(arena, waiters))
  {
  }

  /** Returning a block and waking with the order it was published at
      (src/allocation.rs:40-43, src/buddy.rs:703-736). */
  method ReleaseAndWake(arena: BuddyArena, waiters: BuddyWaiters, x: Block) returns (h: Block)
    requires Ready(arena, waiters) && x in arena.live
    modifies arena.Repr(), waiters
    ensures Ready(arena, waiters)
    ensures Next(old(WorldOf(arena, waiters)), Return(x, h), WorldOf(arena, waiters))
  {
    hide BuddyArena.Valid, W.Inv, W.StreakExact, W.Apply, Books;
    h := arena.Release(x);
    waiters.Wake(h.order);
    ReadyWorld(arena, waiters);
  }

  /** An allocation is one grant of such a run; a refused one changes nothing. */
  method AllocateStep(arena: BuddyArena, waiters: BuddyWaiters, len: nat) returns (r: AllocResult)
    requires Ready(arena, waiters) && 0 < len < Pow2(arena.bits)
    modifies arena.Repr()
    ensures Ready(arena, waiters)
    ensures r.Allocated? ==> Next(old(WorldOf(arena, waiters)), Grant(r.block), WorldOf(arena, waiters))
    ensures !r.Allocated? ==> WorldOf(arena, waiters) == old(WorldOf(arena, waiters))
  {
    hide BuddyArena.Valid, W.Inv, W.StreakExact, W.Apply, Books, Pow2, LeastOrder, Fits, BuddyArena.Served;
    r := arena.Allocate(len);
    ReadyWorld(arena, waiters);
  }

  lemma FreshEntry(s: W.State)
    requires W.Inv(s)
    ensures s.next !in s.entries && s.next !in s.regs
  {
    forall id | id in s.regs ensures id in s.entries { assert W.RegOk(s, id); }
    forall id | id in s.entries ensures id < s.next { assert W.EntryOk(s, id); }
  }

  /** An attempt that does not have to wait leaves a tombstone: every count is as before. */
  lemma WithdrawnAttempt(s: W.State, order: nat, timestamp: nat)
    requires W.Inv(s) && |s.slots| > 0 && timestamp < W.NO_WAITERS_TIMESTAMP
    ensures var s1 := W.Apply(s, W.Register(order, timestamp));
            var s2 := W.Apply(s1, W.Prepare(s.next));
            var s3 := W.Apply(W.Apply(s2, W.Revoke(s.next)), W.Drop(s.next));
            && SameCounts(s.slots, s3.slots)
            && (forall id :: id in s.entries ==> id in s3.entries && s3.entries[id] == s.entries[id])
            && s3.regs == s.regs
  {
    FreshEntry(s);
    var s2 := W.Apply(W.Apply(s, W.Register(order, timestamp)), W.Prepare(s.next));
    var s3 := W.Apply(W.Apply(s2, W.Revoke(s.next)), W.Drop(s.next));
    assert s3.regs == s.regs;
  }

  lemma NoneAvailable(arena: BuddyArena, k: nat)
    requires arena.Valid()
    ensures Available(arena.maps.free, k) <==> Fits(Top(arena.maxOrder), arena.live, k)
  {
    BooksAvailable(arena.maxOrder, arena.live, arena.maps.free, arena.splits - arena.coalesces, k);
  }

  lemma ArenaShape(arena: BuddyArena)
    requires arena.Valid()
    ensures arena.Shape()
  {
  }

  lemma ParkedAttempt(s: W.State, order: nat, timestamp: nat)
    requires W.Inv(s) && |s.slots| > 0
    ensures var s1 := W.Apply(s, W.Register(order, timestamp));
            var s2 := W.Apply(s1, W.Prepare(s.next));
            && s.next in s1.regs && s.next in s2.regs && s.next in W.Apply(s2, W.Revoke(s.next)).regs
            && Parked(s2, if order < |s.slots| then order else |s.slots| - 1, s.next)
  {
  }

  /** One round of `allocate_with_buddy_waiter` (src/async_alloc.rs:617-632): queue first, then
      try, and withdraw if that succeeded. */
  method Attempt(arena: BuddyArena, waiters: BuddyWaiters, len: nat, order: nat, timestamp: nat)
    returns (r: AllocResult, id: nat)
    requires Ready(arena, waiters) && 0 < len < Pow2(arena.bits) && timestamp < W.NO_WAITERS_TIMESTAMP
    requires len <= Pow2(arena.minExp + arena.maxOrder) || Pow2(arena.bits - 1) < len
    modifies arena.Repr(), waiters
    ensures Ready(arena, waiters) && !r.RequestTooLarge?
    ensures r.Allocated? ==>
              && LeastOrder(arena.minExp, len, r.block.order)
              && r.block !in old(arena.live) && arena.live == old(arena.live) + {r.block}
              && SameCounts(old(waiters.slots), waiters.slots) && waiters.regs == old(waiters.regs)
    ensures r.ArenaFull? ==>
              && arena.live == old(arena.live)
              && Parked(waiters.View(), if order <= arena.maxOrder then order else arena.maxOrder, id)
              && (len <= Pow2(arena.bits - 1) ==>
                    !Fits(Top(arena.maxOrder), arena.live, RequestOrder(arena.minExp, len)))
  {
    hide BuddyArena.Valid, W.Inv, W.StreakExact, W.Apply, Books, Pow2;
    hide Available, LeastOrder, RequestOrder, Fits, Parked;
    ghost var s := waiters.View();
    WithdrawnAttempt(s, order, timestamp);
    ParkedAttempt(s, order, timestamp);
    id := waiters.Register(order, timestamp);
    waiters.Prepare(id);
    r := arena.Allocate(len);
    if r.Allocated? {
      waiters.Revoke(id);
      waiters.DropRegistration(id);
    }
  }

  ghost predicate SameCounts(a: seq<W.Slot>, b: seq<W.Slot>)
  {
    |a| == |b| && forall o :: 0 <= o < |a| ==> b[o].count == a[o].count
  }

  /** `allocate_async` up to its first wait (src/async_alloc.rs:715-733). The caller is left
      parked only while no block of its order can be had; a request beyond half the word range
      is parked as well, although no block can ever serve it. */
  method AllocateOrPark(arena: BuddyArena, waiters: BuddyWaiters, len: nat, timestamp: nat)
    returns (r: AllocResult, id: nat)
    requires Ready(arena, waiters) && 0 < len < Pow2(arena.bits) && timestamp < W.NO_WAITERS_TIMESTAMP
    modifies arena.Repr(), waiters
    ensures Ready(arena, waiters)
    ensures r.RequestTooLarge? <==> Pow2(arena.minExp + arena.maxOrder) < len <= Pow2(arena.bits - 1)
    ensures r.RequestTooLarge? ==> waiters.View() == old(waiters.View()) && arena.live == old(arena.live)
    ensures r.Allocated? ==>
              && LeastOrder(arena.minExp, len, r.block.order)
              && r.block !in old(arena.live) && arena.live == old(arena.live) + {r.block}
              && SameCounts(old(waiters.slots), waiters.slots) && waiters.regs == old(waiters.regs)
    ensures r.ArenaFull? && len <= Pow2(arena.bits - 1) ==>
              && !Available(arena.maps.free, RequestOrder(arena.minExp, len))
              && Parked(waiters.View(), RequestOrder(arena.minExp, len), id)
    ensures r.ArenaFull? && len > Pow2(arena.bits - 1) ==> Parked(waiters.View(), arena.maxOrder, id)
    ensures r.ArenaFull? ==> arena.live == old(arena.live)
  {
    hide BuddyArena.Valid, BuddyWaiters.Valid, Books, Pow2, Available;
    hide LeastOrder, RequestOrder, Fits, Parked, SameCounts;
    id := 0;
    ArenaShape(arena);
    var order := arena.ChooseOrder(len);
    if order.None? {
      r := arena.Allocate(len);
    } else {
      r, id := Attempt(arena, waiters, len, order.value, timestamp);
      NoneAvailable(arena, RequestOrder(arena.minExp, len));
    }
  }
}
