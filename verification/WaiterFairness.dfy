/** How long an entry can be overtaken when waiters are at several orders
    (src/async_alloc.rs:253-376). A wake fans out over its candidates with one budget of pops,
    so other orders can use the budget up before this one is reached, and the streak ban can
    leave this order out of a wake altogether.

    The bound comes from a measure that every wake able to serve the order lowers by 36: five
    for each entry queued elsewhere and each tombstone ahead, forty for each live entry ahead,
    and four for each delivery that counts towards a ban of the order.
 */
module WaiterFairness {
  import opened Bitmaps
  import opened Waiters

  // ----- entries queued at other orders

  ghost function Elsewhere(slots: seq<Slot>, o: nat): nat
  {
    if slots == [] then 0
    else Elsewhere(slots[..|slots| - 1], o) + if |slots| - 1 == o then 0 else |slots[|slots| - 1].queue|
  }

  lemma {:induction false} ElsewhereUpdate(slots: seq<Slot>, o: nat, p: nat, slot: Slot)
    requires p < |slots|
    ensures Elsewhere(slots[p := slot], o) - Elsewhere(slots, o)
            == if p == o then 0 else |slot.queue| - |slots[p].queue|
  {
    var n := |slots| - 1;
    if p == n {
      assert slots[p := slot][..n] == slots[..n];
    } else {
      assert slots[p := slot][..n] == slots[..n][p := slot];
      ElsewhereUpdate(slots[..n], o, p, slot);
    }
  }

  lemma {:induction false} SameElsewhere(a: seq<Slot>, b: seq<Slot>, o: nat)
    requires |a| == |b| && forall p :: 0 <= p < |a| && p != o ==> b[p].queue == a[p].queue
    ensures Elsewhere(b, o) == Elsewhere(a, o)
  {
    if a != [] { SameElsewhere(a[..|a| - 1], b[..|b| - 1], o); }
  }

  ghost predicate Woken(s: State, id: nat)
  {
    id in s.entries && s.entries[id].state == WOKEN
  }

  /** `id` has been delivered, or its weight and the entries queued elsewhere are at most `w`. */
  ghost predicate Nearer(s: State, o: nat, id: nat, w: int)
  {
    || Woken(s, id)
    || exists i :: QueuedAt(s, o, id, i) && Weight(s.entries, s.slots[o].queue, i) + Elsewhere(s.slots, o) <= w
  }

  lemma NearerFrom(s: State, o: nat, id: nat, w: int, w': int)
    requires Advanced(s, o, id, w) && o < |s.slots| && w + Elsewhere(s.slots, o) <= w'
    ensures Nearer(s, o, id, w')
  {
    hide Weight, Elsewhere;
  }

  // ----- what the pops of one order do

  /** One candidate order lowers the measure by the pops it uses, and by eight if it is the
      entry's own order and the budget outlasts it. */
  lemma OrderSpends(s: State, p: nat, pops: nat, freed: nat, o: nat, id: nat, w: int)
    requires Inv(s) && Nearer(s, o, id, w) && p < |s.slots| && o < |s.slots| && pops <= MAX_POPS_PER_WAKE
    ensures var (s', pops') := WakeOrder(s, p, pops, freed);
            && Nearer(s', o, id, w - (pops' - pops))
            && (p == o && pops' < MAX_POPS_PER_WAKE ==> Nearer(s', o, id, w - 8))
  {
    hide Inv, WakeOrder, Weight, Elsewhere, Drain, Woke;
    if Woken(s, id) {
      WokenStays(s, p, pops, freed, id);
    } else {
      var i :| QueuedAt(s, o, id, i) && Weight(s.entries, s.slots[o].queue, i) + Elsewhere(s.slots, o) <= w;
      if p == o { OwnSpends(s, pops, freed, o, id, i, w); } else { OtherSpends(s, p, pops, freed, o, id, i, w); }
    }
  }

  lemma WokenStays(s: State, p: nat, pops: nat, freed: nat, id: nat)
    requires Inv(s) && Woken(s, id) && p < |s.slots| && pops <= MAX_POPS_PER_WAKE
    ensures Woken(WakeOrder(s, p, pops, freed).0, id)
  {
    hide Inv, WakeOrder, Drain, UpdatedStreak;
    WakeOrderKeeps(s, p, pops, freed);
  }

  lemma OtherSpends(s: State, p: nat, pops: nat, freed: nat, o: nat, id: nat, i: nat, w: int)
    requires Inv(s) && QueuedAt(s, o, id, i) && p < |s.slots| && p != o && pops <= MAX_POPS_PER_WAKE
    requires Weight(s.entries, s.slots[o].queue, i) + Elsewhere(s.slots, o) <= w
    ensures var (s', pops') := WakeOrder(s, p, pops, freed); Nearer(s', o, id, w - (pops' - pops))
  {
    hide Inv, Weight, Elsewhere, UpdatedStreak, HeadOf;
    var (s', pops') := WakeOrder(s, p, pops, freed);
    var v := Weight(s.entries, s.slots[o].queue, i);
    assert Advanced(s, o, id, v);
    OtherOrderAdvances(s, o, id, v, p, pops, freed);
    ElsewhereUpdate(s.slots, o, p, s'.slots[p]);
    assert s'.slots == s.slots[p := s'.slots[p]];
    NearerFrom(s', o, id, v, w - (pops' - pops));
  }

  /** Popping from the entry's own queue. */
  lemma OwnDrain(entries: map<nat, Entry>, q: seq<nat>, i: nat, budget: nat)
    requires i < |q| && IsLive(entries, q[i]) && Distinct(q)
    ensures var d := Drain(entries, q, budget);
            || d.found == Some(q[i])
            || (&& d.pops <= i && d.rest[i - d.pops] == q[i]
                && Weight(entries, d.rest, i - d.pops) <= Weight(entries, q, i) - d.pops
                && (d.pops < budget ==> Weight(entries, d.rest, i - d.pops) <= Weight(entries, q, i) - 8))
  {
    hide Drain;
    var d := Drain(entries, q, budget);
    if d.found.None? {
      assert d.pops <= i;
      WeightPopped(entries, q, d.pops, i);
    } else if d.found.value != q[i] {
      var k := d.pops - 1;
      assert k < i;
      WeightPopped(entries, q, k, i);
      assert q[k..][1..] == d.rest;
      WeightDelivered(entries, q[k..], i - k);
    }
  }

  lemma OwnSpends(s: State, pops: nat, freed: nat, o: nat, id: nat, i: nat, w: int)
    requires Inv(s) && QueuedAt(s, o, id, i) && pops <= MAX_POPS_PER_WAKE
    requires Weight(s.entries, s.slots[o].queue, i) + Elsewhere(s.slots, o) <= w
    ensures var (s', pops') := WakeOrder(s, o, pops, freed);
            && Nearer(s', o, id, w - (pops' - pops))
            && (pops' < MAX_POPS_PER_WAKE ==> Nearer(s', o, id, w - 8))
  {
    hide Inv, WakeOrder, Drain, Weight, UpdatedStreak, Elsewhere;
    var q, budget := s.slots[o].queue, MAX_POPS_PER_WAKE - pops;
    var d := Drain(s.entries, q, budget);
    var (s', pops') := WakeOrder(s, o, pops, freed);
    PopsUsed(s, o, pops, freed);
    QueueDistinct(s, o);
    WakeOrderKeeps(s, o, pops, freed);
    OwnDrain(s.entries, q, i, budget);
    if d.found == Some(id) {
      assert Woken(s', id);
    } else {
      var k := i - d.pops;
      WeightMonotone(s.entries, s'.entries, d.rest, k);
      StillQueued(s, s', o, id, i, d, freed);
      SameElsewhere(s.slots, s'.slots, o);
    }
  }

  lemma PopsUsed(s: State, p: nat, pops: nat, freed: nat)
    requires p < |s.slots| && pops <= MAX_POPS_PER_WAKE
    ensures WakeOrder(s, p, pops, freed).1 == pops + Drain(s.entries, s.slots[p].queue, MAX_POPS_PER_WAKE - pops).pops
  {
    hide Drain, Deliver;
  }

  // ----- a whole wake

  /** The pops a wake has used in the end. */
  ghost function PopsAfter(s: State, orders: seq<nat>, pops: nat, freed: nat): (n: nat)
    requires pops <= MAX_POPS_PER_WAKE && forall i :: 0 <= i < |orders| ==> orders[i] < |s.slots|
    ensures pops <= n <= MAX_POPS_PER_WAKE
    decreases |orders|
  {
    if orders == [] || pops >= MAX_POPS_PER_WAKE then pops
    else
      var (s', pops') := WakeOrder(s, orders[0], pops, freed);
      PopsAfter(s', orders[1..], pops', freed)
  }

  /** A wake lowers the measure by its pops, and by eight if it visits the entry's order and
      does not run out of budget. */
  lemma {:induction false} WakeSpends(s: State, orders: seq<nat>, pops: nat, freed: nat, o: nat, id: nat, w: int)
    requires Inv(s) && Nearer(s, o, id, w) && o < |s.slots| && pops <= MAX_POPS_PER_WAKE
    requires forall i :: 0 <= i < |orders| ==> orders[i] < |s.slots|
    ensures var s', n := WakeOrders(s, orders, pops, freed), PopsAfter(s, orders, pops, freed);
            && Nearer(s', o, id, w - (n - pops))
            && (o in orders && n < MAX_POPS_PER_WAKE ==> Nearer(s', o, id, w - 8))
    decreases |orders|
  {
    hide Inv, WakeOrder, Nearer, Woke, Drain;
    if orders != [] && pops < MAX_POPS_PER_WAKE {
      var p := orders[0];
      var (s1, pops1) := WakeOrder(s, p, pops, freed);
      WakeOrderKeeps(s, p, pops, freed);
      OrderSpends(s, p, pops, freed, o, id, w);
      WakeSpends(s1, orders[1..], pops1, freed, o, id, w - (pops1 - pops));
      if p == o && pops1 < MAX_POPS_PER_WAKE {
        WakeSpends(s1, orders[1..], pops1, freed, o, id, w - 8);
        var s', n := WakeOrders(s, orders, pops, freed), PopsAfter(s, orders, pops, freed);
        NearerWeaken(s', o, id, w - 8 - (n - pops1), w - 8);
      } else if o in orders[1..] {
        var s', n := WakeOrders(s, orders, pops, freed), PopsAfter(s, orders, pops, freed);
        if n < MAX_POPS_PER_WAKE { NearerWeaken(s', o, id, w - (pops1 - pops) - 8, w - 8); }
      }
    }
  }

  lemma NearerWeaken(s: State, o: nat, id: nat, w: int, w': int)
    requires Nearer(s, o, id, w) && w <= w'
    ensures Nearer(s, o, id, w')
  {
    hide Weight, Elsewhere;
  }

  // ----- the streak

  /** Deliveries in a row that count towards a ban of order `o`. */
  function Charge(streak: nat, o: nat): nat
  {
    if LastWinner(streak) != o then 0
    else if StreakCount(streak) < MAX_CONSECUTIVE then StreakCount(streak)
    else MAX_CONSECUTIVE
  }

  lemma ChargeUpdate(streak: nat, p: nat, o: nat)
    ensures LastWinner(UpdatedStreak(streak, p)) == p
    ensures Charge(UpdatedStreak(streak, p), o) <= if p == o then Charge(streak, o) + 1 else 0
  {
    var run := StreakCount(streak);
    PackIs(p, 1);
    PackIs(p, if run < U32_MAX then run + 1 else U32_MAX);
  }

  lemma OrderCharges(s: State, p: nat, pops: nat, freed: nat, o: nat)
    requires Inv(s) && p < |s.slots| && pops <= MAX_POPS_PER_WAKE
    ensures var s' := WakeOrder(s, p, pops, freed).0;
            && Charge(s'.streak, o) <= Charge(s.streak, o) + (if p == o then 1 else 0)
            && (p != o && LastWinner(s.streak) != o ==> LastWinner(s'.streak) != o)
            && (Drain(s.entries, s.slots[p].queue, MAX_POPS_PER_WAKE - pops).found.Some? ==> LastWinner(s'.streak) == p)
  {
    hide Inv, WakeOrder, Drain, UpdatedStreak, LastWinner, Charge;
    WakeOrderKeeps(s, p, pops, freed);
    ChargeUpdate(s.streak, p, o);
  }

  lemma {:induction false} WakeCharges(s: State, orders: seq<nat>, pops: nat, freed: nat, o: nat)
    requires Inv(s) && pops <= MAX_POPS_PER_WAKE && Distinct(orders)
    requires forall i :: 0 <= i < |orders| ==> orders[i] < |s.slots|
    ensures var s' := WakeOrders(s, orders, pops, freed);
            && Charge(s'.streak, o) <= Charge(s.streak, o) + (if o in orders then 1 else 0)
            && (o !in orders && LastWinner(s.streak) != o ==> LastWinner(s'.streak) != o)
    decreases |orders|
  {
    hide Inv, WakeOrder, Woke, Drain, LastWinner, Charge;
    if orders != [] && pops < MAX_POPS_PER_WAKE {
      var (s1, pops1) := WakeOrder(s, orders[0], pops, freed);
      WakeOrderKeeps(s, orders[0], pops, freed);
      OrderCharges(s, orders[0], pops, freed, o);
      TailDistinct(orders);
      WakeCharges(s1, orders[1..], pops1, freed, o);
    }
  }

  lemma TailDistinct(orders: seq<nat>)
    requires orders != [] && Distinct(orders)
    ensures Distinct(orders[1..]) && orders[0] !in orders[1..]
    ensures forall x :: x in orders <==> x == orders[0] || x in orders[1..]
  {
    forall x ensures x in orders <==> x == orders[0] || x in orders[1..] {
      if x in orders { var k :| 0 <= k < |orders| && orders[k] == x; if k > 0 { assert orders[1..][k - 1] == x; } }
    }
  }

  /** A wake that leaves order `o` out and does not run out of budget serves another order. */
  lemma PassedOver(s: State, orders: seq<nat>, freed: nat, o: nat)
    requires Inv(s) && Distinct(orders) && orders != [] && o !in orders && AllEligible(s, orders)
    requires forall i :: 0 <= i < |orders| ==> orders[i] < |s.slots|
    requires PopsAfter(s, orders, 0, freed) < MAX_POPS_PER_WAKE
    ensures LastWinner(WakeOrders(s, orders, 0, freed).streak) != o
  {
    hide Inv, WakeOrder, Woke, Drain, LastWinner, Charge;
    var p := orders[0];
    var (s1, pops1) := WakeOrder(s, p, 0, freed);
    WakeOrderKeeps(s, p, 0, freed);
    OrderCharges(s, p, 0, freed, o);
    PopsUsed(s, p, 0, freed);
    EligibleFound(s, p);
    TailDistinct(orders);
    WakeCharges(s1, orders[1..], pops1, freed, o);
  }

  /** A drain of an eligible order finds a live entry or uses up the budget. */
  lemma EligibleFound(s: State, p: nat)
    requires Inv(s) && Eligible(s, p)
    ensures var d := Drain(s.entries, s.slots[p].queue, MAX_POPS_PER_WAKE); d.found.Some? || d.pops == MAX_POPS_PER_WAKE
  {
    hide Drain;
    assert SlotOk(s, p);
    var q := s.slots[p].queue;
    var id :| id in LiveIn(s.entries, q);
    var k :| 0 <= k < |q| && q[k] == id;
    var d := Drain(s.entries, q, MAX_POPS_PER_WAKE);
    assert IsLive(s.entries, q[k]);
  }

  // ----- the measure

  ghost function Measure(s: State, o: nat, i: nat): nat
    requires o < |s.slots| && i < |s.slots[o].queue|
  {
    5 * (Weight(s.entries, s.slots[o].queue, i) + Elsewhere(s.slots, o)) + 4 * Charge(s.streak, o)
  }

  /** `id` has been delivered, or the measure is at most `r`. */
  ghost predicate Due(s: State, o: nat, id: nat, r: int)
  {
    || Woken(s, id)
    || exists i :: QueuedAt(s, o, id, i) && Measure(s, o, i) <= r
  }

  lemma DueFrom(s: State, o: nat, id: nat, w: int, r: int)
    requires Nearer(s, o, id, w) && 5 * w + 4 * Charge(s.streak, o) <= r
    ensures Due(s, o, id, r)
  {
    hide Weight, Elsewhere, Charge;
  }

  /** Every wake that can serve the order lowers the measure by 36. */
  lemma ServingWakeLowers(s: State, freed: nat, o: nat, id: nat, r: int)
    requires Inv(s) && Due(s, o, id, r) && o < |s.slots| && o <= freed
    ensures |s.slots| > 0 && Due(Apply(s, Wake(freed)), o, id, r - 36)
  {
    hide Inv, Weight, Elsewhere, Charge, Candidates, WakeOrders, PopsAfter, Nearer;
    if Woken(s, id) {
      WakeKeepsWoken(s, freed, o, id);
    } else {
      var i :| QueuedAt(s, o, id, i) && Measure(s, o, i) <= r;
      var w := Weight(s.entries, s.slots[o].queue, i) + Elsewhere(s.slots, o);
      NearerHere(s, o, id, i, w);
      Serves(s, freed, o, id, i, w);
      var s' := Apply(s, Wake(freed));
      if Nearer(s', o, id, w - 8) && Charge(s'.streak, o) <= Charge(s.streak, o) + 1 {
        DueFrom(s', o, id, w - 8, r - 36);
      } else {
        DueFrom(s', o, id, w, r - 36);
      }
    }
  }

  lemma NearerHere(s: State, o: nat, id: nat, i: nat, w: int)
    requires QueuedAt(s, o, id, i) && Weight(s.entries, s.slots[o].queue, i) + Elsewhere(s.slots, o) <= w
    ensures Nearer(s, o, id, w)
  {
  }

  lemma WakeKeepsWoken(s: State, freed: nat, o: nat, id: nat)
    requires Inv(s) && Woken(s, id) && o < |s.slots|
    ensures Woken(Apply(s, Wake(freed)), id)
  {
    hide Inv, Apply;
    StepAdvances(s, Wake(freed), o, id, -1);
    AdvancedBelowZero(Apply(s, Wake(freed)), o, id, -1);
  }

  /** Such a wake brings the entry nearer by eight, or it passes the order over because of the
      ban and so lifts the ban. */
  lemma Serves(s: State, freed: nat, o: nat, id: nat, i: nat, w: int)
    requires Inv(s) && QueuedAt(s, o, id, i) && Nearer(s, o, id, w) && o <= freed
    ensures |s.slots| > 0
    ensures var s' := Apply(s, Wake(freed));
            || (Nearer(s', o, id, w - 8) && Charge(s'.streak, o) <= Charge(s.streak, o) + 1)
            || (Nearer(s', o, id, w) && Charge(s.streak, o) == MAX_CONSECUTIVE && Charge(s'.streak, o) == 0)
  {
    hide Inv, Weight, Elsewhere, Candidates, WakeOrders, PopsAfter, Nearer, LastWinner, StreakCount;
    var orders := Candidates(s, freed);
    InvNonempty(s);
    QueuedIsEligible(s, o, id);
    CandidatesExact(s, freed);
    RankedDistinct(s, freed);
    WakeSpends(s, orders, 0, freed, o, id, w);
    WakeCharges(s, orders, 0, freed, o);
    var n := PopsAfter(s, orders, 0, freed);
    if n < MAX_POPS_PER_WAKE && o !in orders {
      BannedOnly(s, freed, o);
      PassedOver(s, orders, freed, o);
      NearerWeaken(Apply(s, Wake(freed)), o, id, w - n, w);
    }
  }

  lemma BannedOnly(s: State, freed: nat, o: nat)
    requires |s.slots| > 0 && Eligible(s, o) && o <= freed && o !in Candidates(s, freed)
    ensures LastWinner(s.streak) == o && StreakCount(s.streak) >= MAX_CONSECUTIVE && Candidates(s, freed) != []
  {
    CandidatesExact(s, freed);
    var all := Collect(s, if freed < |s.slots| then freed + 1 else |s.slots|);
    assert o in all;
  }

  // ----- other operations

  /** The operation queues an entry at another order. */
  predicate Arrives(s: State, e: Event, o: nat)
  {
    e.Prepare? && e.id in s.regs && s.regs[e.id].order != o
  }

  /** No other operation raises the measure, except by five for an arrival elsewhere. */
  lemma OtherStepKeeps(s: State, e: Event, o: nat, id: nat, r: int)
    requires Inv(s) && Due(s, o, id, r) && o < |s.slots| && Spares(e, id)
    ensures |s.slots| > 0 && Due(Apply(s, e), o, id, if Arrives(s, e, o) then r + 5 else r)
  {
    hide Inv, Weight, Elsewhere, Charge, Apply;
    InvNonempty(s);
    if Woken(s, id) {
      StepAdvances(s, e, o, id, -1);
      AdvancedBelowZero(Apply(s, e), o, id, -1);
    } else {
      var i :| QueuedAt(s, o, id, i) && Measure(s, o, i) <= r;
      if e.Wake? { LowWakeKeeps(s, e.freed, o, id, i, r); } else { QuietKeeps(s, e, o, id, i, r); }
    }
  }

  lemma LowWakeKeeps(s: State, freed: nat, o: nat, id: nat, i: nat, r: int)
    requires Inv(s) && QueuedAt(s, o, id, i) && Measure(s, o, i) <= r
    ensures |s.slots| > 0 && Due(Apply(s, Wake(freed)), o, id, r)
  {
    hide Inv, Weight, Elsewhere, Charge, Candidates, WakeOrders, PopsAfter, Nearer;
    InvNonempty(s);
    if o <= freed {
      ServingWakeLowers(s, freed, o, id, r);
      DueWeaken(Apply(s, Wake(freed)), o, id, r - 36, r);
    } else {
      var w := Weight(s.entries, s.slots[o].queue, i) + Elsewhere(s.slots, o);
      var orders := Candidates(s, freed);
      CandidatesExact(s, freed);
      RankedDistinct(s, freed);
      NearerHere(s, o, id, i, w);
      WakeSpends(s, orders, 0, freed, o, id, w);
      WakeCharges(s, orders, 0, freed, o);
      DueFrom(Apply(s, Wake(freed)), o, id, w - PopsAfter(s, orders, 0, freed), r);
    }
  }

  lemma DueWeaken(s: State, o: nat, id: nat, r: int, r': int)
    requires Due(s, o, id, r) && r <= r'
    ensures Due(s, o, id, r')
  {
    hide Weight, Elsewhere, Charge;
  }

  lemma QuietKeeps(s: State, e: Event, o: nat, id: nat, i: nat, r: int)
    requires Inv(s) && QueuedAt(s, o, id, i) && !e.Wake? && Spares(e, id) && Measure(s, o, i) <= r
    ensures |s.slots| > 0 && Due(Apply(s, e), o, id, if Arrives(s, e, o) then r + 5 else r)
  {
    hide Inv, Weight, Elsewhere, Charge, Apply, Nearer;
    InvNonempty(s);
    var s', v := Apply(s, e), Weight(s.entries, s.slots[o].queue, i);
    AdvancedHere(s, o, id, i, v);
    QuietAdvances(s, e, o, id, v);
    QuietElsewhere(s, e, o);
    var w := v + Elsewhere(s'.slots, o);
    NearerFrom(s', o, id, v, w);
    DueFrom(s', o, id, w, if Arrives(s, e, o) then r + 5 else r);
  }

  lemma AdvancedHere(s: State, o: nat, id: nat, i: nat, v: int)
    requires QueuedAt(s, o, id, i) && Weight(s.entries, s.slots[o].queue, i) <= v
    ensures Advanced(s, o, id, v)
  {
  }

  lemma QuietElsewhere(s: State, e: Event, o: nat)
    requires Inv(s) && !e.Wake?
    ensures |s.slots| > 0 && Apply(s, e).streak == s.streak
    ensures Elsewhere(Apply(s, e).slots, o) <= Elsewhere(s.slots, o) + if Arrives(s, e, o) then 1 else 0
  {
    hide Elsewhere;
    var s' := Apply(s, e);
    if e.Prepare? && s' != s {
      var p := s.regs[e.id].order;
      ElsewhereUpdate(s.slots, o, p, s'.slots[p]);
    } else {
      SameElsewhere(s.slots, s'.slots, o);
    }
  }

  // ----- whole runs

  /** The entries queued at other orders during a run. */
  ghost function Arrivals(s: State, es: seq<Event>, o: nat): nat
    requires |s.slots| > 0
  {
    if es == [] then 0
    else Arrivals(s, es[..|es| - 1], o) + if Arrives(Run(s, es[..|es| - 1]), es[|es| - 1], o) then 1 else 0
  }

  lemma {:induction false} RunLowers(s: State, es: seq<Event>, o: nat, id: nat, r: int)
    requires Inv(s) && Due(s, o, id, r) && o < |s.slots| && forall k :: 0 <= k < |es| ==> Spares(es[k], id)
    ensures |s.slots| > 0 && Inv(Run(s, es))
    ensures Due(Run(s, es), o, id, r - 36 * ServingWakes(es, o) + 5 * Arrivals(s, es, o))
  {
    hide Inv, Due, Apply, Arrives;
    InvNonempty(s);
    if es != [] {
      var init, e := es[..|es| - 1], es[|es| - 1];
      RunLowers(s, init, o, id, r);
      var mid, left := Run(s, init), r - 36 * ServingWakes(init, o) + 5 * Arrivals(s, init, o);
      InvStep(mid, e);
      if e.Wake? && o <= e.freed {
        ServingWakeLowers(mid, e.freed, o, id, left);
        WakeArrivesNowhere(mid, e, o);
      } else {
        OtherStepKeeps(mid, e, o, id, left);
      }
    }
  }

  lemma WakeArrivesNowhere(s: State, e: Event, o: nat)
    requires e.Wake?
    ensures !Arrives(s, e, o)
  {
  }

  /** Delivery with waiters at any orders. Take an entry with `L` live entries and `T` tombstones
      ahead, `E` entries queued at other orders and `A` more queued there during the run. If
      nobody revokes it, it is woken once 36 times the wakes that can serve its order exceed
      `5 * (8L + T + E + A) + 4k`, where `k <= 10` deliveries count towards a ban of its order. */
  lemma DeliveredAmongOrders(s: State, es: seq<Event>, o: nat, id: nat, i: nat)
    requires Inv(s) && QueuedAt(s, o, id, i) && forall k :: 0 <= k < |es| ==> Spares(es[k], id)
    requires |s.slots| > 0
    requires var live := |LiveIn(s.entries, s.slots[o].queue[..i])|;
             36 * ServingWakes(es, o)
             > 5 * (8 * live + (i - live) + Elsewhere(s.slots, o) + Arrivals(s, es, o)) + 4 * Charge(s.streak, o)
    ensures Woken(Run(s, es), id)
  {
    hide Inv, Weight, Elsewhere, Charge, Run, ServingWakes, Arrivals, LiveIn;
    QueueDistinct(s, o);
    WeightCounts(s.entries, s.slots[o].queue, i);
    var r := Measure(s, o, i);
    assert Due(s, o, id, r);
    RunLowers(s, es, o, id, r);
    DueBelowZero(Run(s, es), o, id, r - 36 * ServingWakes(es, o) + 5 * Arrivals(s, es, o));
  }

  lemma DueBelowZero(s: State, o: nat, id: nat, r: int)
    requires Due(s, o, id, r) && r < 0
    ensures Woken(s, id)
  {
  }
}
