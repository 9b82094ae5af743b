/** What becomes of an order whose waiters are counted while its head time is the sentinel
    (src/async_alloc.rs:253-294, 509-526): the scoring skips it, so no wake reaches it, and a
    prepare that finds the count above zero does not repair the head.
 */
module StuckOrder {
  import opened Bitmaps
  import opened Waiters

  /** The state with a real head time at order `o`. */
  function Shown(s: State, o: nat): State
    requires o < |s.slots|
  {
    s.(slots := s.slots[o := s.slots[o].(headTimestamp := 0)])
  }

  /** Everything is in order except that the head of order `o`, where `id` waits, is the sentinel. */
  ghost predicate Stuck(s: State, o: nat, id: nat)
  {
    && o < |s.slots| && s.slots[o].headTimestamp == NO_WAITERS_TIMESTAMP
    && Inv(Shown(s, o)) && id in s.slots[o].queue && IsLive(s.entries, id)
  }

  lemma StuckCounted(s: State, o: nat, id: nat)
    requires Stuck(s, o, id)
    ensures s.slots[o].count > 0 && |s.slots| > 0
  {
    assert SlotOk(Shown(s, o), o);
    assert id in LiveIn(s.entries, s.slots[o].queue);
  }

  /** No wake considers a stuck order. */
  lemma StuckSkipped(s: State, o: nat, id: nat, freed: nat)
    requires Stuck(s, o, id)
    ensures o !in Candidates(s, freed)
  {
    CandidatesExact(s, freed);
  }

  /** No entry in the queue of order `o` has been woken. */
  ghost predicate NoneWoken(s: State, o: nat)
    requires o < |s.slots|
  {
    forall x :: x in s.slots[o].queue && x in s.entries ==> s.entries[x].state != WOKEN
  }

  /** What a step leaves of a stuck order: its queue only grows, and none of it is woken. */
  ghost predicate StillStuck(s: State, s': State, o: nat, id: nat)
    requires o < |s.slots|
  {
    Stuck(s', o, id) && s.slots[o].queue <= s'.slots[o].queue && (NoneWoken(s, o) ==> NoneWoken(s', o))
  }

  // ----- operations other than wakes

  lemma QuietCommutes(s: State, e: Event, o: nat, id: nat)
    requires Stuck(s, o, id) && !e.Wake?
    ensures |s.slots| > 0
    ensures var s' := Apply(s, e);
            && Apply(Shown(s, o), e) == Shown(s', o)
            && s'.slots[o].headTimestamp == s.slots[o].headTimestamp && s.slots[o].queue <= s'.slots[o].queue
  {
    hide Inv;
    StuckCounted(s, o, id);
    var s' := Apply(s, e);
    assert Apply(Shown(s, o), e).slots == Shown(s', o).slots;
  }

  lemma QuietStuck(s: State, e: Event, o: nat, id: nat)
    requires Stuck(s, o, id) && !e.Wake? && Spares(e, id)
    ensures |s.slots| > 0 && StillStuck(s, Apply(s, e), o, id)
  {
    hide Inv, Apply, NoneWoken, Shown;
    QuietCommutes(s, e, o, id);
    ShownParts(s, o);
    ShownParts(Apply(s, e), o);
    InvStep(Shown(s, o), e);
    QuietEntries(s, e, o, id);
    assert s.slots[o].queue <= Apply(s, e).slots[o].queue;
    PrefixMember(s.slots[o].queue, Apply(s, e).slots[o].queue, id);
  }

  lemma ShownParts(s: State, o: nat)
    requires o < |s.slots|
    ensures Shown(s, o).entries == s.entries && Shown(s, o).regs == s.regs
  {
  }

  lemma PrefixMember(q: seq<nat>, q': seq<nat>, x: nat)
    requires q <= q' && x in q
    ensures x in q'
  {
    var k :| 0 <= k < |q| && q[k] == x;
    assert q'[k] == x;
  }

  lemma QuietEntries(s: State, e: Event, o: nat, id: nat)
    requires Stuck(s, o, id) && !e.Wake? && Spares(e, id)
    ensures |s.slots| > 0
    ensures var s' := Apply(s, e); IsLive(s'.entries, id) && (NoneWoken(s, o) ==> NoneWoken(s', o))
  {
    var t := Shown(s, o);
    assert EntryOk(t, id);
    if e.Prepare? && e.id in s.regs { assert RegOk(t, e.id); }
  }

  // ----- wakes

  lemma WakeOrderCommutes(s: State, p: nat, pops: nat, freed: nat, o: nat)
    requires o < |s.slots| && p < |s.slots| && p != o && pops <= MAX_POPS_PER_WAKE
    ensures var (s', n) := WakeOrder(s, p, pops, freed);
            WakeOrder(Shown(s, o), p, pops, freed) == (Shown(s', o), n) && s'.slots[o] == s.slots[o]
  {
    hide Drain, HeadOf, UpdatedStreak;
    var (s', n) := WakeOrder(s, p, pops, freed);
    var (t', m) := WakeOrder(Shown(s, o), p, pops, freed);
    assert t'.slots == Shown(s', o).slots;
  }

  /** A wake that passes over order `o` leaves its slot and the entries in it alone. */
  lemma {:induction false} WakePasses(s: State, orders: seq<nat>, pops: nat, freed: nat, o: nat)
    requires o < |s.slots| && Inv(Shown(s, o)) && pops <= MAX_POPS_PER_WAKE
    requires forall i :: 0 <= i < |orders| ==> orders[i] < |s.slots| && orders[i] != o
    ensures var s' := WakeOrders(s, orders, pops, freed);
            && Inv(Shown(s', o)) && s'.slots[o] == s.slots[o]
            && forall x :: x in s.slots[o].queue && x in s.entries ==> x in s'.entries && s'.entries[x] == s.entries[x]
    decreases |orders|
  {
    hide Inv, Woke, WakeOrder, Drain;
    if orders != [] && pops < MAX_POPS_PER_WAKE {
      var p := orders[0];
      var (s1, pops1) := WakeOrder(s, p, pops, freed);
      WakeOrderCommutes(s, p, pops, freed, o);
      WakeOrderKeeps(Shown(s, o), p, pops, freed);
      OthersUntouched(s, p, pops, freed, o);
      WakePasses(s1, orders[1..], pops1, freed, o);
    }
  }

  lemma OthersUntouched(s: State, p: nat, pops: nat, freed: nat, o: nat)
    requires o < |s.slots| && p < |s.slots| && p != o && pops <= MAX_POPS_PER_WAKE && Inv(Shown(s, o))
    ensures var s' := WakeOrder(s, p, pops, freed).0;
            forall x :: x in s.slots[o].queue && x in s.entries ==> x in s'.entries && s'.entries[x] == s.entries[x]
  {
    hide HeadOf, UpdatedStreak;
    var t := Shown(s, o);
    assert QueuesDisjoint(t) && t.slots[p].queue == s.slots[p].queue && t.slots[o].queue == s.slots[o].queue;
    var d := Drain(s.entries, s.slots[p].queue, MAX_POPS_PER_WAKE - pops);
    if d.found.Some? { assert d.found.value in s.slots[p].queue; }
  }

  lemma WakeStuck(s: State, freed: nat, o: nat, id: nat)
    requires Stuck(s, o, id)
    ensures |s.slots| > 0 && StillStuck(s, Apply(s, Wake(freed)), o, id)
  {
    hide Inv, Candidates, WakeOrders, Shown;
    StuckCounted(s, o, id);
    StuckSkipped(s, o, id, freed);
    CandidatesInRange(s, freed);
    ShownParts(s, o);
    EntryKnown(s, o, id);
    WakePasses(s, Candidates(s, freed), 0, freed, o);
  }

  lemma EntryKnown(s: State, o: nat, id: nat)
    requires Stuck(s, o, id)
    ensures forall x :: x in s.slots[o].queue ==> x in s.entries
  {
    assert SlotOk(Shown(s, o), o);
  }

  // ----- whole runs

  lemma StuckStep(s: State, e: Event, o: nat, id: nat)
    requires Stuck(s, o, id) && Spares(e, id)
    ensures |s.slots| > 0 && StillStuck(s, Apply(s, e), o, id)
  {
    hide Stuck, StillStuck, Apply;
    if e.Wake? { WakeStuck(s, e.freed, o, id); } else { QuietStuck(s, e, o, id); }
  }

  /** From a stuck order on, every run that does not revoke or drop the waiter keeps the head
      at the sentinel and the order out of every wake's candidates, and wakes neither that
      waiter nor any other that is or gets queued at the order. */
  lemma {:induction false} StuckForever(s: State, es: seq<Event>, o: nat, id: nat)
    requires Stuck(s, o, id) && NoneWoken(s, o) && forall k :: 0 <= k < |es| ==> Spares(es[k], id)
    ensures |s.slots| > 0
    ensures var s' := Run(s, es);
            && Stuck(s', o, id) && NoneWoken(s', o) && s.slots[o].queue <= s'.slots[o].queue
            && forall freed :: o !in Candidates(s', freed)
  {
    hide Stuck, NoneWoken, Apply, Candidates;
    StuckCounted(s, o, id);
    if es != [] {
      StuckForever(s, es[..|es| - 1], o, id);
      StuckStep(Run(s, es[..|es| - 1]), es[|es| - 1], o, id);
    }
    forall freed ensures o !in Candidates(Run(s, es), freed) { StuckSkipped(Run(s, es), o, id, freed); }
  }
}
