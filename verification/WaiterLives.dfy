/** The life of one waiter over whole operations (src/async_alloc.rs:378-392, 509-594): what
    each of its fields says about the operations so far, when it leaves LIVE, and when a poll
    of it is ready.
 */
module WaiterLives {
  import opened Bitmaps
  import opened Waiters
  import opened WaiterFairness

  // ----- one operation

  /** A registration changes only by operations on itself: a prepare queues it once, a revoke
      or a ready poll unregisters it, and a drop removes it. */
  lemma RegistrationStep(s: State, e: Event, id: nat)
    requires Inv(s) && id in s.regs && TimestampsBelow(e)
    ensures |s.slots| > 0 && id in s.entries
    ensures var s' := Apply(s, e);
            && (id in s'.regs <==> e != Drop(id))
            && (id in s'.regs ==>
                  var a, b := s.regs[id], s'.regs[id];
                  var ready := e == Poll(id) && s.entries[id].state != LIVE;
                  && b.order == a.order
                  && (b.pending <==> a.pending && e != Prepare(id))
                  && (b.rxOpen <==> a.rxOpen && !ready)
                  && (b.registered <==>
                        || (a.pending && e == Prepare(id))
                        || (a.registered && e != Revoke(id) && !(ready && a.rxOpen))))
  {
    hide SlotOk, NowhereQueued, QueuesDisjoint, WakeOrders;
    assert RegOk(s, id) && EntryOk(s, id);
    if e.Register? { assert EntryOk(s, id); }
    if e.Wake? { WakeKeepsRegs(s, Candidates(s, e.freed), 0, e.freed); }
  }

  lemma {:induction false} WakeKeepsRegs(s: State, orders: seq<nat>, pops: nat, freed: nat)
    requires pops <= MAX_POPS_PER_WAKE && forall i :: 0 <= i < |orders| ==> orders[i] < |s.slots|
    ensures WakeOrders(s, orders, pops, freed).regs == s.regs
    decreases |orders|
  {
    hide Drain, HeadOf, UpdatedStreak;
    if orders != [] && pops < MAX_POPS_PER_WAKE {
      var (s', pops') := WakeOrder(s, orders[0], pops, freed);
      WakeKeepsRegs(s', orders[1..], pops', freed);
    }
  }

  /** An entry keeps its time, leaves LIVE at most once, and is revoked exactly by a revoke or
      drop of its registration while that is registered. */
  lemma EntryStep(s: State, e: Event, id: nat)
    requires Inv(s) && id in s.entries && TimestampsBelow(e)
    ensures |s.slots| > 0
    ensures var s' := Apply(s, e);
            && id in s'.entries && s'.entries[id].timestamp == s.entries[id].timestamp
            && (s.entries[id].state != LIVE ==> s'.entries[id] == s.entries[id])
            && (s.entries[id].state == LIVE ==>
                  && (s'.entries[id].state == REVOKED <==>
                        (e == Revoke(id) || e == Drop(id)) && id in s.regs && s.regs[id].registered)
                  && (s'.entries[id].state == WOKEN ==> e.Wake? && s'.entries[id].sent == Some(e.freed)))
  {
    hide Inv, WakeOrders, Candidates;
    InvNonempty(s);
    KnownEntry(s, id);
    if e.Wake? {
      CandidatesInRange(s, e.freed);
      WakeEntry(s, Candidates(s, e.freed), 0, e.freed, id);
    }
  }

  lemma KnownEntry(s: State, id: nat)
    requires Inv(s) && id in s.entries
    ensures EntryOk(s, id) && (id in s.regs ==> RegOk(s, id))
  {
  }

  /** What a wake may do to an entry. */
  predicate WakeOf(a: Entry, b: Entry, freed: nat)
  {
    b == a || (a.state == LIVE && b == a.(state := WOKEN, hasTx := false, sent := Some(freed)))
  }

  lemma {:induction false} WakeEntry(s: State, orders: seq<nat>, pops: nat, freed: nat, id: nat)
    requires Inv(s) && id in s.entries
    requires pops <= MAX_POPS_PER_WAKE && forall i :: 0 <= i < |orders| ==> orders[i] < |s.slots|
    ensures var s' := WakeOrders(s, orders, pops, freed);
            id in s'.entries && WakeOf(s.entries[id], s'.entries[id], freed)
    decreases |orders|
  {
    hide Inv, WakeOrder, UpdatedStreak;
    if orders != [] && pops < MAX_POPS_PER_WAKE {
      var (s', pops') := WakeOrder(s, orders[0], pops, freed);
      WakeOrderKeeps(s, orders[0], pops, freed);
      WakeEntry(s', orders[1..], pops', freed, id);
    }
  }

  // ----- registering

  /** A new registration waits at the order asked for, or the highest there is, with the time
      given, and is not queued yet. */
  lemma RegisterAdds(s: State, order: nat, timestamp: nat)
    requires Inv(s) && timestamp < NO_WAITERS_TIMESTAMP
    ensures |s.slots| > 0
    ensures var s', id := Apply(s, Register(order, timestamp)), s.next;
            && id !in s.entries && id !in s.regs
            && IsLive(s'.entries, id) && s'.entries[id].timestamp == timestamp
            && id in s'.regs && s'.regs[id].pending && !s'.regs[id].registered && s'.regs[id].rxOpen
            && s'.regs[id].order == (if order < |s.slots| then order else |s.slots| - 1)
            && s'.slots == s.slots && NowhereQueued(s', id)
  {
    assert forall x :: x in s.entries ==> EntryOk(s, x);
    assert forall x :: x in s.regs ==> RegOk(s, x);
    RegisterKeeps(s, order, timestamp);
    assert RegOk(Apply(s, Register(order, timestamp)), s.next);
  }

  /** Over any run a waiter keeps its time, and its order while it is registered. */
  lemma {:induction false} KeptOver(s: State, es: seq<Event>, id: nat)
    requires Inv(s) && id in s.entries && id in s.regs && forall k :: 0 <= k < |es| ==> TimestampsBelow(es[k])
    ensures |s.slots| > 0
    ensures var s' := Run(s, es);
            && Inv(s') && id in s'.entries && s'.entries[id].timestamp == s.entries[id].timestamp
            && (id in s'.regs <==> forall k :: 0 <= k < |es| ==> es[k] != Drop(id))
            && (id in s'.regs ==> s'.regs[id].order == s.regs[id].order)
            && (s.entries[id].state != LIVE ==> s'.entries[id] == s.entries[id])
  {
    hide Inv, Apply;
    InvNonempty(s);
    if es != [] {
      var init, e := es[..|es| - 1], es[|es| - 1];
      KeptOver(s, init, id);
      var mid := Run(s, init);
      InvStep(mid, e);
      EntryStep(mid, e, id);
      if id in mid.regs { RegistrationStep(mid, e, id); } else { GoneStays(mid, e, id); }
    }
  }

  lemma GoneStays(s: State, e: Event, id: nat)
    requires Inv(s) && id in s.entries && id !in s.regs
    ensures |s.slots| > 0 && id !in Apply(s, e).regs
  {
    assert EntryOk(s, id);
    if e.Wake? { WakeKeepsRegs(s, Candidates(s, e.freed), 0, e.freed); }
  }

  // ----- polling

  /** A poll is ready if and only if an earlier one was or the entry has left LIVE, and it
      changes nothing but its own registration. */
  lemma PollReadyIff(s: State, id: nat)
    requires Inv(s) && id in s.regs
    ensures |s.slots| > 0 && id in s.entries
    ensures var s' := Apply(s, Poll(id));
            && id in s'.regs && (!s'.regs[id].rxOpen <==> !s.regs[id].rxOpen || s.entries[id].state != LIVE)
            && s' == s.(regs := s.regs[id := s'.regs[id]])
  {
    assert RegOk(s, id);
    assert EntryOk(s, id);
  }

  /** A waiter that is woken over a run and never dropped is ready at its next poll. */
  lemma WokenIsReady(s: State, es: seq<Event>, id: nat)
    requires Inv(s) && id in s.regs && forall k :: 0 <= k < |es| ==> Spares(es[k], id)
    requires |s.slots| > 0 && Woken(Run(s, es), id)
    ensures var s' := Apply(Run(s, es), Poll(id)); id in s'.regs && !s'.regs[id].rxOpen
  {
    hide Inv, Run, Apply;
    HasEntry(s, id);
    KeptOver(s, es, id);
    PollReadyIff(Run(s, es), id);
  }

  lemma HasEntry(s: State, id: nat)
    requires Inv(s) && id in s.regs
    ensures id in s.entries
  {
    assert RegOk(s, id);
  }

  lemma QueuedIsRegistered(s: State, o: nat, id: nat, i: nat)
    requires Inv(s) && QueuedAt(s, o, id, i)
    ensures id in s.regs
  {
    assert SlotOk(s, o);
    assert id in s.slots[o].queue;
  }

  /** With `L` live entries and `T` tombstones ahead, a waiter that nobody gives up on is ready
      at its next poll after `L + T / 8 + 1` wakes that had its order as best candidate. */
  lemma DeliveredThenReady(s: State, es: seq<Event>, o: nat, id: nat, i: nat)
    requires Inv(s) && |s.slots| > 0 && QueuedAt(s, o, id, i) && forall k :: 0 <= k < |es| ==> Spares(es[k], id)
    requires var live := |LiveIn(s.entries, s.slots[o].queue[..i])|;
             BestWakes(s, es, o) >= live + (i - live) / 8 + 1
    ensures var s' := Apply(Run(s, es), Poll(id)); id in s'.regs && !s'.regs[id].rxOpen
  {
    hide Inv, Run, Apply, BestWakes;
    DeliveredWithin(s, es, o, id, i);
    QueuedIsRegistered(s, o, id, i);
    WokenIsReady(s, es, id);
  }

  /** A waiter is never ready without a reason: over any run, a first ready poll means a wake
      delivered to it or its registration was revoked. */
  lemma ReadyMeansSettled(s: State, es: seq<Event>, id: nat)
    requires Inv(s) && id in s.regs && s.regs[id].rxOpen && forall k :: 0 <= k < |es| ==> TimestampsBelow(es[k])
    ensures |s.slots| > 0
    ensures var s' := Run(s, es);
            id in s'.regs && !s'.regs[id].rxOpen ==> id in s'.entries && s'.entries[id].state != LIVE
  {
    hide Inv, Apply;
    InvNonempty(s);
    HasEntry(s, id);
    if es != [] {
      var init, e := es[..|es| - 1], es[|es| - 1];
      ReadyMeansSettled(s, init, id);
      KeptOver(s, init, id);
      var mid := Run(s, init);
      EntryStep(mid, e, id);
      if id in mid.regs { RegistrationStep(mid, e, id); } else { GoneStays(mid, e, id); }
    }
  }
}
