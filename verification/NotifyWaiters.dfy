/** `NotifyWaiters` and `BuddyRegistration` (src/async_alloc.rs) as an object whose methods
    update the queues in place; each method does what the state machine of module
    `Waiters` says its operation does.
 */
module NotifyWaiters {
  import opened Bitmaps
  import opened Waiters

  class BuddyWaiters {
    var slots: seq<Slot>
    var entries: map<nat, Entry>
    var regs: map<nat, Registration>
    var streakState: nat
    var next: nat
    ghost var log: seq<nat>

    ghost function View(): State
      reads this
    {
      State(slots, entries, regs, streakState, next, log)
    }

    ghost predicate Valid()
      reads this
    {
      Inv(View()) && StreakExact(View())
    }

    /** `NotifyWaiters::new` (src/async_alloc.rs:230-245). */
    constructor (orders: nat)
      requires 0 < orders <= U32_MAX
      ensures View() == Init(orders) && Valid()
    {
      slots := seq(orders, i => Slot([], 0, NO_WAITERS_TIMESTAMP));
      entries, regs, streakState, next, log := map[], map[], 0, 0, [];
      new;
      InvInitial(orders);
      StreakInitial(orders);
    }

    /** `buddy_register` (src/async_alloc.rs:378-392). */
    method Register(order: nat, timestamp: nat) returns (id: nat)
      requires Valid() && timestamp < NO_WAITERS_TIMESTAMP
      modifies this
      ensures Valid() && id == old(next) && View() == Apply(old(View()), Event.Register(order, timestamp))
    {
      InvStep(View(), Event.Register(order, timestamp));
      StreakStep(View(), Event.Register(order, timestamp));
      id := next;
      entries := entries[id := Entry(LIVE, true, timestamp, None)];
      regs := regs[id := Registration(if order < |slots| then order else |slots| - 1, false, true, true)];
      next := next + 1;
    }

    /** `prepare` (src/async_alloc.rs:509-526). */
    method Prepare(id: nat)
      requires Valid() && id in regs
      modifies this
      ensures Valid() && View() == Apply(old(View()), Event.Prepare(id))
    {
      InvStep(View(), Event.Prepare(id));
      StreakStep(View(), Event.Prepare(id));
      assert RegOk(View(), id);
      if !regs[id].registered && regs[id].pending {
        var o := regs[id].order;
        var prev := slots[o].count;
        var head := if prev == 0 then entries[id].timestamp else slots[o].headTimestamp;
        slots := slots[o := Slot(slots[o].queue + [id], prev + 1, head)];
        regs := regs[id := regs[id].(registered := true, pending := false)];
      }
    }

    /** The compare-exchange from LIVE to REVOKED that revoke and drop share. */
    method TryRevoke(id: nat)
      requires Inv(View()) && id in regs && regs[id].registered
      modifies this`entries, this`slots
      ensures View() == RevokeEntry(old(View()), id)
    {
      assert RegOk(View(), id);
      if entries[id].state == LIVE {
        entries := entries[id := entries[id].(state := REVOKED, hasTx := false)];
        var o := regs[id].order;
        slots := slots[o := slots[o].(count := slots[o].count - 1)];
      }
    }

    /** `revoke` (src/async_alloc.rs:528-550). */
    method Revoke(id: nat)
      requires Valid() && id in regs
      modifies this
      ensures Valid() && View() == Apply(old(View()), Event.Revoke(id))
    {
      InvStep(View(), Event.Revoke(id));
      StreakStep(View(), Event.Revoke(id));
      if regs[id].registered {
        TryRevoke(id);
        regs := regs[id := regs[id].(registered := false)];
      }
    }

    /** Dropping a registration (src/async_alloc.rs:573-594). */
    method DropRegistration(id: nat)
      requires Valid() && id in regs
      modifies this
      ensures Valid() && View() == Apply(old(View()), Event.Drop(id))
    {
      InvStep(View(), Event.Drop(id));
      StreakStep(View(), Event.Drop(id));
      if regs[id].registered { TryRevoke(id); }
      regs := regs - {id};
    }

    /** `poll` (src/async_alloc.rs:556-570). */
    method Poll(id: nat) returns (ready: bool)
      requires Valid() && id in regs
      modifies this
      ensures Valid() && View() == Apply(old(View()), Event.Poll(id))
      ensures id in regs && (ready <==> !regs[id].rxOpen)
      ensures id in old(entries) && (ready <==> old(!regs[id].rxOpen || entries[id].state != LIVE))
    {
      InvStep(View(), Event.Poll(id));
      StreakStep(View(), Event.Poll(id));
      assert RegOk(View(), id) && EntryOk(View(), id);
      if regs[id].rxOpen && (entries[id].sent.Some? || !entries[id].hasTx) {
        regs := regs[id := regs[id].(rxOpen := false, registered := false)];
      }
      ready := !regs[id].rxOpen;
    }

    /** `update_head_timestamp` (src/async_alloc.rs:308-327): past the tombstones. */
    method HeadTimestamp(queue: seq<nat>) returns (ts: nat)
      ensures ts == HeadOf(entries, queue)
    {
      var i := 0;
      while i < |queue|
        invariant 0 <= i <= |queue|
        invariant HeadOf(entries, queue) == HeadOf(entries, queue[i..])
      {
        if queue[i] in entries && entries[queue[i]].state == LIVE { return entries[queue[i]].timestamp; }
        assert queue[i..][1..] == queue[i + 1..];
        i := i + 1;
      }
      return NO_WAITERS_TIMESTAMP;
    }

    /** `score_orders` (src/async_alloc.rs:253-294). */
    method ScoreOrders(freed: nat) returns (r: seq<nat>)
      requires |slots| > 0
      ensures r == Candidates(View(), freed)
    {
      hide Collect, Eligible, LastWinner, StreakCount, Sorted;
      var all := CollectOrders(if freed < |slots| then freed + 1 else |slots|);
      if StreakCount(streakState) >= MAX_CONSECUTIVE && |all| > 1 && LastWinner(streakState) in all {
        all := Without(all, LastWinner(streakState));
      }
      assert all == Admitted(View(), freed);
      AdmittedEligible(View(), freed);
      r := SortByAge(all);
    }

    lemma AdmittedEligible(s: State, freed: nat)
      requires |s.slots| > 0
      ensures AllEligible(s, Admitted(s, freed))
    {
    }

    /** The eligible orders below `n` (src/async_alloc.rs:264-280). */
    method CollectOrders(n: nat) returns (all: seq<nat>)
      requires n <= |slots|
      ensures all == Collect(View(), n)
    {
      all := [];
      var order := 0;
      while order < n
        invariant 0 <= order <= n
        invariant all == Collect(View(), order)
      {
        if slots[order].count > 0 && slots[order].headTimestamp != NO_WAITERS_TIMESTAMP {
          all := all + [order];
        }
        order := order + 1;
      }
    }

    /** `sort_by_key` on the effective age, which is stable (src/async_alloc.rs:292). */
    method SortByAge(all: seq<nat>) returns (r: seq<nat>)
      requires AllEligible(View(), all)
      ensures r == Sorted(View(), all)
    {
      hide Eligible;
      r := [];
      var i := 0;
      while i < |all|
        invariant 0 <= i <= |all| && AllEligible(View(), all[..i]) && AllEligible(View(), r)
        invariant r == Sorted(View(), all[..i])
      {
        assert all[..i + 1][..i] == all[..i];
        r := InsertByAge(r, all[i]);
        i := i + 1;
      }
      assert all[..i] == all;
    }

    /** One insertion of the stable sort by effective age. */
    method InsertByAge(r: seq<nat>, o: nat) returns (q: seq<nat>)
      requires AllEligible(View(), r) && Eligible(View(), o)
      ensures q == Insert(View(), r, o)
    {
      var k := |r|;
      assert r[..k] == r && r[k..] == [];
      while k > 0 && EffectiveAge(slots[r[k - 1]], r[k - 1]) > EffectiveAge(slots[o], o)
        invariant 0 <= k <= |r|
        invariant AllEligible(View(), r[..k])
        invariant Insert(View(), r, o) == Insert(View(), r[..k], o) + r[k..]
      {
        assert r[..k][..k - 1] == r[..k - 1];
        k := k - 1;
      }
      q := r[..k] + [o] + r[k..];
    }

    /** The pop loop of one order (src/async_alloc.rs:340-374): at most the pops left, past
        tombstones, up to the first live entry, which is woken. */
    method WakeOneOrder(order: nat, pops: nat, freed: nat) returns (used: nat)
      requires Inv(View()) && order < |slots| && pops <= MAX_POPS_PER_WAKE
      modifies this
      ensures (View(), used) == WakeOrder(old(View()), order, pops, freed)
      ensures Inv(View())
    {
      hide Inv, HeadOf, UpdatedStreak, Drain;
      WakeOrderKeeps(View(), order, pops, freed);
      var queue, popped, found := PopUntilLive(slots[order].queue, MAX_POPS_PER_WAKE - pops);
      used := pops + popped;
      if found.None? {
        slots := slots[order := slots[order].(queue := queue)];
      } else {
        Send(order, found.value, queue, freed);
      }
    }

    /** The pops of one order (src/async_alloc.rs:344-352). */
    method PopUntilLive(q: seq<nat>, budget: nat) returns (queue: seq<nat>, pops: nat, found: Option<nat>)
      ensures Drained(queue, pops, found) == Drain(entries, q, budget)
    {
      queue, pops, found := q, 0, None;
      while pops < budget && queue != [] && found.None?
        invariant pops <= budget
        invariant found.None? ==>
          var d := Drain(entries, queue, budget - pops);
          Drain(entries, q, budget) == Drained(d.rest, d.pops + pops, d.found)
        invariant found.Some? ==> Drain(entries, q, budget) == Drained(queue, pops, found)
        decreases budget - pops
      {
        var id := queue[0];
        queue := queue[1..];
        pops := pops + 1;
        if id in entries && entries[id].state == LIVE { found := Some(id); }
      }
    }

    /** Winning LIVE to WOKEN: count, head timestamp, send, streak (src/async_alloc.rs:354-372). */
    method Send(order: nat, id: nat, rest: seq<nat>, freed: nat)
      requires order < |slots| && id in entries
      modifies this
      ensures View() == Deliver(old(View()), order, id, rest, freed)
    {
      hide UpdatedStreak;
      var entry := entries[id];
      var ok := entry.hasTx && id in regs && regs[id].rxOpen;
      entries := entries[id := entry.(state := WOKEN, hasTx := false, sent := if ok then Some(freed) else entry.sent)];
      var head := HeadTimestamp(rest);
      slots := slots[order := Slot(rest, slots[order].count - 1, head)];
      if ok {
        streakState := UpdatedStreak(streakState, order);
        log := log + [order];
      }
    }

    /** `buddy_wake` (src/async_alloc.rs:329-376): one delivery per candidate order while
        pops are left. */
    method Wake(freed: nat)
      requires Valid()
      modifies this
      ensures Valid() && View() == Apply(old(View()), Event.Wake(freed))
    {
      hide Inv, StreakExact, Candidates, WakeOrder;
      ghost var s := View();
      InvStep(s, Event.Wake(freed));
      StreakStep(s, Event.Wake(freed));
      InvNonempty(s);
      CandidatesInRange(s, freed);
      var orders := ScoreOrders(freed);
      var pops, i := 0, 0;
      assert orders[0..] == orders;
      while i < |orders| && pops < MAX_POPS_PER_WAKE
        invariant 0 <= i <= |orders| && 0 <= pops <= MAX_POPS_PER_WAKE && |slots| == |s.slots| && Inv(View())
        invariant forall k :: 0 <= k < |orders| ==> orders[k] < |slots|
        invariant WakeOrders(View(), orders[i..], pops, freed) == WakeOrders(s, orders, 0, freed)
      {
        assert orders[i..][1..] == orders[i + 1..];
        pops := WakeOneOrder(orders[i], pops, freed);
        i := i + 1;
      }
    }
  }
}
