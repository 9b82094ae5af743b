/** What decides which order a wake serves first (src/async_alloc.rs:253-327): the ranking in
    plain numbers, and when the head time it reads is the time of the first live waiter.
 */
module WaiterRanking {
  import opened Bitmaps
  import opened Waiters

  // ----- the ranking

  /** The age of an order whose first waiter came at `head`: fifty microseconds off for each
      level, five for each waiter, and never below zero. */
  function Age(head: nat, order: nat, waiters: nat): nat
  {
    var age := head - 50_000 * order - 5_000 * waiters;
    if age > 0 then age else 0
  }

  /** The live waiters in the queue of an order. */
  ghost function WaitersAt(s: State, o: nat): nat
    requires o < |s.slots|
  {
    |LiveIn(s.entries, s.slots[o].queue)|
  }

  ghost function AgeAt(s: State, o: nat): nat
    requires o < |s.slots|
  {
    Age(s.slots[o].headTimestamp, o, WaitersAt(s, o))
  }

  /** Saturation never shows: a product that does not fit exceeds every head time. */
  lemma AgeIs(s: State, o: nat)
    requires Inv(s) && Eligible(s, o)
    ensures EffectiveAge(s.slots[o], o) == AgeAt(s, o)
  {
    assert SlotOk(s, o);
  }

  /** Of two candidates the one with the smaller age comes first, and the lower order if the
      ages are equal. */
  lemma RankedByAge(s: State, freed: nat, i: nat, j: nat)
    requires Inv(s) && |s.slots| > 0 && i < |Candidates(s, freed)| && j < |Candidates(s, freed)| && i != j
    ensures var a, b := Candidates(s, freed)[i], Candidates(s, freed)[j];
            && a < |s.slots| && b < |s.slots| && a != b
            && (i < j <==> AgeAt(s, a) < AgeAt(s, b) || (AgeAt(s, a) == AgeAt(s, b) && a < b))
  {
    hide Inv, EffectiveAge, AgeAt, Candidates;
    var r := Candidates(s, freed);
    CandidatesExact(s, freed);
    AgeIs(s, r[i]);
    AgeIs(s, r[j]);
    if i < j { assert Before(s, r[i], r[j]); } else { assert Before(s, r[j], r[i]); }
  }

  /** With equal head times and equally many waiters the higher order is served first, unless
      the age of the lower one is zero. */
  lemma HigherFirst(s: State, freed: nat, i: nat, j: nat)
    requires Inv(s) && |s.slots| > 0 && i < |Candidates(s, freed)| && j < |Candidates(s, freed)|
    requires var a, b := Candidates(s, freed)[i], Candidates(s, freed)[j];
             && a < b < |s.slots| && s.slots[a].headTimestamp == s.slots[b].headTimestamp
             && WaitersAt(s, a) == WaitersAt(s, b)
    ensures j < i <==> AgeAt(s, Candidates(s, freed)[i]) > 0
  {
    hide Inv, Candidates, WaitersAt;
    RankedByAge(s, freed, i, j);
  }

  /** One level makes up for ten waiters: with equal head times order `o + 1` comes before
      order `o` if and only if `o` has fewer than ten waiters more and its age is not zero. */
  lemma LevelIsTenWaiters(s: State, freed: nat, i: nat, j: nat)
    requires Inv(s) && |s.slots| > 0 && i < |Candidates(s, freed)| && j < |Candidates(s, freed)|
    requires var a, b := Candidates(s, freed)[i], Candidates(s, freed)[j];
             b == a + 1 < |s.slots| && s.slots[a].headTimestamp == s.slots[b].headTimestamp
    ensures var a := Candidates(s, freed)[i];
            j < i <==> WaitersAt(s, a) < WaitersAt(s, a + 1) + 10 && AgeAt(s, a) > 0
  {
    hide Inv, Candidates, WaitersAt;
    RankedByAge(s, freed, i, j);
  }

  // ----- the head time

  /** The recomputed head time is that of the first live entry, or the sentinel if none is live. */
  lemma {:induction false} HeadOfFirst(entries: map<nat, Entry>, queue: seq<nat>, k: nat)
    requires k <= |queue| && forall j :: 0 <= j < k ==> !IsLive(entries, queue[j])
    ensures k < |queue| && IsLive(entries, queue[k]) ==> HeadOf(entries, queue) == entries[queue[k]].timestamp
    ensures k == |queue| ==> HeadOf(entries, queue) == NO_WAITERS_TIMESTAMP
    ensures HeadOf(entries, queue) == HeadOf(entries, queue[k..])
  {
    if k > 0 {
      HeadOfFirst(entries, queue[1..], k - 1);
      assert queue[1..][k - 1..] == queue[k..];
    } else {
      assert queue[0..] == queue;
    }
  }

  lemma {:induction false} SameHead(entries: map<nat, Entry>, entries': map<nat, Entry>, queue: seq<nat>)
    requires forall x :: x in queue ==> (IsLive(entries, x) <==> IsLive(entries', x))
    requires forall x :: x in queue && IsLive(entries, x) && IsLive(entries', x) ==>
               entries'[x].timestamp == entries[x].timestamp
    ensures HeadOf(entries', queue) == HeadOf(entries, queue)
  {
    if queue != [] && !IsLive(entries, queue[0]) { SameHead(entries, entries', queue[1..]); }
  }

  lemma {:induction false} HeadAppend(entries: map<nat, Entry>, queue: seq<nat>, id: nat)
    requires IsLive(entries, id)
    ensures HeadOf(entries, queue + [id])
            == if LiveIn(entries, queue) == {} then entries[id].timestamp else HeadOf(entries, queue)
  {
    if queue == [] {
      assert LiveIn(entries, queue) == {};
    } else if IsLive(entries, queue[0]) {
      assert queue[0] in LiveIn(entries, queue);
    } else {
      HeadAppend(entries, queue[1..], id);
      assert (queue + [id])[1..] == queue[1..] + [id];
      assert LiveIn(entries, queue) == LiveIn(entries, queue[1..]) by {
        assert forall x :: x in queue <==> x == queue[0] || x in queue[1..];
      }
    }
  }

  /** An entry leaving LIVE behind the first live one does not change the head. */
  lemma {:induction false} HeadBehind(entries: map<nat, Entry>, entries': map<nat, Entry>, queue: seq<nat>, id: nat)
    requires !IsLive(entries', id) && FirstLive(entries, queue) != Some(id)
    requires forall x :: x in queue && x != id ==> (IsLive(entries, x) <==> IsLive(entries', x))
    requires forall x :: x in queue && x != id && IsLive(entries, x) && IsLive(entries', x) ==>
               entries'[x].timestamp == entries[x].timestamp
    ensures HeadOf(entries', queue) == HeadOf(entries, queue)
  {
    if queue != [] && !IsLive(entries, queue[0]) { HeadBehind(entries, entries', queue[1..], id); }
  }

  function FirstLive(entries: map<nat, Entry>, queue: seq<nat>): Option<nat>
  {
    if queue == [] then None
    else if IsLive(entries, queue[0]) then Some(queue[0])
    else FirstLive(entries, queue[1..])
  }

  /** The head of an order with waiters is the time of its first live one. */
  ghost predicate HeadExact(s: State, o: nat)
    requires o < |s.slots|
  {
    s.slots[o].count > 0 ==> s.slots[o].headTimestamp == HeadOf(s.entries, s.slots[o].queue)
  }

  /** The operation revokes the first live entry of order `o`. */
  predicate RevokesFirst(s: State, e: Event, o: nat)
    requires o < |s.slots|
  {
    && (e.Revoke? || e.Drop?) && e.id in s.regs && s.regs[e.id].registered
    && FirstLive(s.entries, s.slots[o].queue) == Some(e.id)
  }

  /** Delivering to an order writes the time of the waiter that is first from then on. */
  lemma DeliveryShowsFirst(s: State, o: nat, pops: nat, freed: nat)
    requires Inv(s) && o < |s.slots| && pops <= MAX_POPS_PER_WAKE
    requires Drain(s.entries, s.slots[o].queue, MAX_POPS_PER_WAKE - pops).found.Some?
    ensures var s' := WakeOrder(s, o, pops, freed).0;
            s'.slots[o].headTimestamp == HeadOf(s'.entries, s'.slots[o].queue)
  {
    hide Drain;
  }

  lemma OrderKeepsHead(s: State, p: nat, pops: nat, freed: nat, o: nat)
    requires Inv(s) && p < |s.slots| && o < |s.slots| && pops <= MAX_POPS_PER_WAKE && HeadExact(s, o)
    ensures HeadExact(WakeOrder(s, p, pops, freed).0, o)
  {
    hide Inv, WakeOrder, Drain, HeadOf, Woke;
    var d := Drain(s.entries, s.slots[p].queue, MAX_POPS_PER_WAKE - pops);
    WakeOrderKeeps(s, p, pops, freed);
    if p == o {
      if d.found.Some? { DeliveryShowsFirst(s, o, pops, freed); } else { TombstonesPopped(s, o, pops, freed); }
    } else {
      OtherDelivered(s, p, pops, freed, o);
    }
  }

  lemma TombstonesPopped(s: State, o: nat, pops: nat, freed: nat)
    requires Inv(s) && o < |s.slots| && pops <= MAX_POPS_PER_WAKE && HeadExact(s, o)
    requires Drain(s.entries, s.slots[o].queue, MAX_POPS_PER_WAKE - pops).found.None?
    ensures HeadExact(WakeOrder(s, o, pops, freed).0, o)
  {
    hide Inv, Drain, HeadOf;
    var d := Drain(s.entries, s.slots[o].queue, MAX_POPS_PER_WAKE - pops);
    HeadOfFirst(s.entries, s.slots[o].queue, d.pops);
  }

  lemma OtherDelivered(s: State, p: nat, pops: nat, freed: nat, o: nat)
    requires Inv(s) && p < |s.slots| && o < |s.slots| && p != o && pops <= MAX_POPS_PER_WAKE && HeadExact(s, o)
    ensures HeadExact(WakeOrder(s, p, pops, freed).0, o)
  {
    hide Drain, HeadOf, WakeOrder, SlotOk, RegOk, EntryOk;
    var d := Drain(s.entries, s.slots[p].queue, MAX_POPS_PER_WAKE - pops);
    var s' := WakeOrder(s, p, pops, freed).0;
    WakeOrderKeeps(s, p, pops, freed);
    if d.found.Some? {
      assert d.found.value in s.slots[p].queue;
      assert d.found.value !in s.slots[o].queue;
    }
    SameHead(s.entries, s'.entries, s.slots[o].queue);
  }

  lemma {:induction false} WakeKeepsHead(s: State, orders: seq<nat>, pops: nat, freed: nat, o: nat)
    requires Inv(s) && o < |s.slots| && pops <= MAX_POPS_PER_WAKE && HeadExact(s, o)
    requires forall i :: 0 <= i < |orders| ==> orders[i] < |s.slots|
    ensures HeadExact(WakeOrders(s, orders, pops, freed), o)
    decreases |orders|
  {
    hide Inv, WakeOrder, Drain, HeadExact, Woke;
    if orders != [] && pops < MAX_POPS_PER_WAKE {
      var (s', pops') := WakeOrder(s, orders[0], pops, freed);
      WakeOrderKeeps(s, orders[0], pops, freed);
      OrderKeepsHead(s, orders[0], pops, freed, o);
      WakeKeepsHead(s', orders[1..], pops', freed, o);
    }
  }

  /** Only the revocation of the first live waiter makes a head time stale. */
  lemma HeadStep(s: State, e: Event, o: nat)
    requires Inv(s) && o < |s.slots| && HeadExact(s, o) && !RevokesFirst(s, e, o)
    ensures HeadExact(Apply(s, e), o)
  {
    hide HeadOf, SlotOk, EntryOk, Inv;
    match e {
      case Register(_, _) => RegisterKeepsHead(s, e, o);
      case Prepare(id) => PrepareKeepsHead(s, id, o);
      case Revoke(id) => if id in s.regs { RevokeKeepsHead(s, id, o); }
      case Poll(_) =>
      case Drop(id) => if id in s.regs { RevokeKeepsHead(s, id, o); }
      case Wake(freed) =>
        InvNonempty(s);
        CandidatesInRange(s, freed);
        WakeKeepsHead(s, Candidates(s, freed), 0, freed, o);
    }
  }

  lemma RegisterKeepsHead(s: State, e: Event, o: nat)
    requires Inv(s) && e.Register? && o < |s.slots| && HeadExact(s, o)
    ensures HeadExact(Apply(s, e), o)
  {
    assert SlotOk(s, o);
    forall x | x in s.slots[o].queue ensures x != s.next { assert EntryOk(s, x); }
    SameHead(s.entries, Apply(s, e).entries, s.slots[o].queue);
  }

  lemma PrepareKeepsHead(s: State, id: nat, o: nat)
    requires Inv(s) && o < |s.slots| && HeadExact(s, o)
    ensures |s.slots| > 0 && HeadExact(Apply(s, Prepare(id)), o)
  {
    hide HeadOf;
    assert SlotOk(s, o);
    if id in s.regs {
      assert RegOk(s, id);
      if s.regs[id].pending { HeadAppend(s.entries, s.slots[o].queue, id); }
    }
  }

  lemma RevokeKeepsHead(s: State, id: nat, o: nat)
    requires Inv(s) && id in s.regs && o < |s.slots| && HeadExact(s, o)
    requires s.regs[id].registered ==> FirstLive(s.entries, s.slots[o].queue) != Some(id)
    ensures HeadExact(RevokeEntry(s, id), o)
  {
    hide HeadOf, FirstLive;
    assert SlotOk(s, o);
    var s' := RevokeEntry(s, id);
    if s' != s { HeadBehind(s.entries, s'.entries, s.slots[o].queue, id); }
  }

  /** That one does: the head keeps the time of the revoked waiter. */
  lemma RevokedFirstStays(s: State, e: Event, o: nat)
    requires Inv(s) && o < |s.slots| && HeadExact(s, o) && RevokesFirst(s, e, o)
    ensures |s.slots| > 0 && IsLive(s.entries, e.id) && !IsLive(Apply(s, e).entries, e.id)
    ensures Apply(s, e).slots[o].headTimestamp == s.entries[e.id].timestamp
  {
    hide HeadOf, FirstLive, LiveIn;
    FirstLiveIs(s.entries, s.slots[o].queue, e.id);
    assert SlotOk(s, o) && RegOk(s, e.id);
    assert e.id in LiveIn(s.entries, s.slots[o].queue) by { InLive(s.entries, s.slots[o].queue, e.id); }
  }

  lemma InLive(entries: map<nat, Entry>, queue: seq<nat>, id: nat)
    requires id in queue && IsLive(entries, id)
    ensures id in LiveIn(entries, queue)
  {
  }

  lemma {:induction false} FirstLiveIs(entries: map<nat, Entry>, queue: seq<nat>, id: nat)
    requires FirstLive(entries, queue) == Some(id)
    ensures id in queue && IsLive(entries, id) && HeadOf(entries, queue) == entries[id].timestamp
  {
    if !IsLive(entries, queue[0]) { FirstLiveIs(entries, queue[1..], id); }
  }

  /** After any run in which the first live waiter of an order is never the one revoked, the
      head time that the ranking of that order uses is the time of its first live waiter. */
  lemma {:induction false} RunHeadExact(orders: nat, es: seq<Event>, o: nat)
    requires o < orders && forall k :: 0 <= k < |es| ==> TimestampsBelow(es[k])
    requires forall k :: 0 <= k < |es| ==> !RevokesFirst(Run(Init(orders), es[..k]), es[k], o)
    ensures HeadExact(Run(Init(orders), es), o)
  {
    hide Inv, Apply, RevokesFirst, HeadExact;
    if es == [] {
      InitHead(orders, o);
    } else {
      var init, n := es[..|es| - 1], |es| - 1;
      forall k | 0 <= k < n ensures !RevokesFirst(Run(Init(orders), init[..k]), init[k], o) {
        assert init[..k] == es[..k];
      }
      RunHeadExact(orders, init, o);
      InvRun(orders, init);
      HeadStep(Run(Init(orders), init), es[n], o);
    }
  }

  lemma InitHead(orders: nat, o: nat)
    requires o < orders
    ensures HeadExact(Run(Init(orders), []), o)
  {
  }
}
