/** The buddy waiter queues (src/async_alloc.rs) as a state machine whose steps are whole
    operations: register, prepare, revoke, poll, drop and wake.

    An entry is known by a number, shared by the queue and the registration. Timestamps
    are arbitrary numbers below the sentinel. A oneshot channel is a cell that is sent to at
    most once, with a receiver that may be gone.
 */
module Waiters {
  import opened Words
  import opened Bitmaps

  const U64_MAX: nat := 0xFFFF_FFFF_FFFF_FFFF
  const U32_MAX: nat := 0xFFFF_FFFF
  const NO_WAITERS_TIMESTAMP: nat := U64_MAX
  const MAX_POPS_PER_WAKE: nat := 8
  const MAX_CONSECUTIVE: nat := 10
  const ORDER_BONUS_NS: nat := 50_000
  const DEPTH_BONUS_NS: nat := 5_000

  datatype EntryState = LIVE | WOKEN | REVOKED

  datatype Entry = Entry(state: EntryState, hasTx: bool, timestamp: nat, sent: Option<nat>)

  datatype Registration = Registration(order: nat, registered: bool, pending: bool, rxOpen: bool)

  datatype Slot = Slot(queue: seq<nat>, count: int, headTimestamp: nat)

  /** `log` lists the orders delivered to, oldest first. */
  datatype State = State(
    slots: seq<Slot>,
    entries: map<nat, Entry>,
    regs: map<nat, Registration>,
    streak: nat,
    next: nat,
    log: seq<nat>)

  datatype Event =
    | Register(order: nat, timestamp: nat)
    | Prepare(id: nat)
    | Revoke(id: nat)
    | Poll(id: nat)
    | Drop(id: nat)
    | Wake(freed: nat)

  // ----- arithmetic of src/async_alloc.rs

  function SatSub(x: nat, y: nat): nat { if x >= y then x - y else 0 }

  function SatMul(x: nat, y: nat): nat { if x * y <= U64_MAX then x * y else U64_MAX }

  function EffectiveAge(slot: Slot, order: nat): nat
    requires slot.count >= 0
  {
    SatSub(SatSub(slot.headTimestamp, SatMul(order, ORDER_BONUS_NS)), SatMul(slot.count, DEPTH_BONUS_NS))
  }

  /** The packed streak: last winner in the upper 32 bits, run length in the lower. */
  function Pack(winner: nat, run: nat): nat
  {
    Or(winner * (U32_MAX + 1), run)
  }

  function LastWinner(streak: nat): nat { streak / (U32_MAX + 1) }

  function StreakCount(streak: nat): nat { streak % (U32_MAX + 1) }

  /** `update_streak` (src/async_alloc.rs:296-306). */
  function UpdatedStreak(streak: nat, winner: nat): nat
  {
    if winner == LastWinner(streak)
    then Pack(winner, if StreakCount(streak) < U32_MAX then StreakCount(streak) + 1 else U32_MAX)
    else Pack(winner, 1)
  }

  // ----- score_orders

  predicate Eligible(s: State, o: nat)
  {
    o < |s.slots| && s.slots[o].count > 0 && s.slots[o].headTimestamp != NO_WAITERS_TIMESTAMP
  }

  predicate Ascending(r: seq<nat>)
  {
    forall i, j :: 0 <= i < j < |r| ==> r[i] < r[j]
  }

  lemma AscendingSnoc(r: seq<nat>, x: nat)
    requires Ascending(r) && forall y :: y in r ==> y < x
    ensures Ascending(r + [x])
  {
    forall i, j | 0 <= i < j < |r + [x]| ensures (r + [x])[i] < (r + [x])[j] {
      if j == |r| { assert r[i] in r; }
    }
  }

  /** The eligible orders below `n`, ascending. */
  function Collect(s: State, n: nat): (r: seq<nat>)
    ensures forall o: nat :: o in r <==> o < n && Eligible(s, o)
    ensures Ascending(r)
  {
    if n == 0 then []
    else
      var r := Collect(s, n - 1);
      if Eligible(s, n - 1) then AscendingSnoc(r, n - 1); r + [n - 1] else r
  }

  function Without(r: seq<nat>, x: nat): (q: seq<nat>)
    ensures forall o :: o in q <==> o in r && o != x
    ensures Ascending(r) ==> Ascending(q)
    ensures |q| <= |r|
  {
    if r == [] then []
    else
      var init, last := r[..|r| - 1], r[|r| - 1];
      var q := Without(init, x);
      assert r == init + [last];
      if last == x then q
      else
        assert Ascending(r) ==> Ascending(q + [last]) by {
          if Ascending(r) { AscendingSnoc(q, last); }
        }
        q + [last]
  }

  /** The streak ban applies to this list of eligible orders. */
  predicate Banning(s: State, r: seq<nat>)
  {
    StreakCount(s.streak) >= MAX_CONSECUTIVE && |r| > 1 && LastWinner(s.streak) in r
  }

  /** The orders a wake considers after the ban, still ascending. */
  function Admitted(s: State, freed: nat): (r: seq<nat>)
    requires |s.slots| > 0
  {
    var all := Collect(s, if freed < |s.slots| then freed + 1 else |s.slots|);
    if Banning(s, all) then Without(all, LastWinner(s.streak)) else all
  }

  predicate Before(s: State, a: nat, b: nat)
    requires Eligible(s, a) && Eligible(s, b)
  {
    var x, y := EffectiveAge(s.slots[a], a), EffectiveAge(s.slots[b], b);
    x < y || (x == y && a < b)
  }

  predicate AllEligible(s: State, r: seq<nat>)
  {
    forall i :: 0 <= i < |r| ==> Eligible(s, r[i])
  }

  /** Oldest effective age first, lower order first among equals. */
  predicate Ranked(s: State, r: seq<nat>)
    requires AllEligible(s, r)
  {
    forall i, j :: 0 <= i < j < |r| ==> Before(s, r[i], r[j])
  }

  /** Insertion behind the entries of equal or smaller age, as a stable sort does for an
      order larger than all of those. */
  function Insert(s: State, r: seq<nat>, o: nat): (q: seq<nat>)
    requires AllEligible(s, r) && Eligible(s, o)
    ensures AllEligible(s, q) && |q| == |r| + 1
    ensures forall x :: x in q <==> x in r || x == o
  {
    if r == [] || EffectiveAge(s.slots[r[|r| - 1]], r[|r| - 1]) <= EffectiveAge(s.slots[o], o) then r + [o]
    else
      assert r == r[..|r| - 1] + [r[|r| - 1]];
      Insert(s, r[..|r| - 1], o) + [r[|r| - 1]]
  }

  lemma {:induction false} InsertRanked(s: State, r: seq<nat>, o: nat)
    requires AllEligible(s, r) && Eligible(s, o) && Ranked(s, r) && forall x :: x in r ==> x < o
    ensures Ranked(s, Insert(s, r, o))
  {
    if r == [] {
    } else if EffectiveAge(s.slots[r[|r| - 1]], r[|r| - 1]) <= EffectiveAge(s.slots[o], o) {
      RankedSnoc(s, r, o);
    } else {
      var init, last := r[..|r| - 1], r[|r| - 1];
      forall x | x in init ensures x < o { assert x in r; }
      InsertRanked(s, init, o);
      var q := Insert(s, init, o);
      forall i | 0 <= i < |q| ensures Before(s, q[i], last) {
        assert q[i] in q;
        if q[i] in init { var k :| 0 <= k < |init| && init[k] == q[i]; assert Before(s, r[k], r[|r| - 1]); }
      }
      RankedAppend(s, q, last);
    }
  }

  lemma RankedSnoc(s: State, r: seq<nat>, o: nat)
    requires AllEligible(s, r) && Eligible(s, o) && Ranked(s, r) && (forall x :: x in r ==> x < o) && r != []
    requires EffectiveAge(s.slots[r[|r| - 1]], r[|r| - 1]) <= EffectiveAge(s.slots[o], o)
    ensures Ranked(s, r + [o])
  {
    forall i | 0 <= i < |r| ensures Before(s, r[i], o) {
      assert r[i] in r;
      if i < |r| - 1 { assert Before(s, r[i], r[|r| - 1]); }
    }
    RankedAppend(s, r, o);
  }

  lemma RankedAppend(s: State, r: seq<nat>, o: nat)
    requires AllEligible(s, r) && Eligible(s, o) && Ranked(s, r)
    requires forall i :: 0 <= i < |r| ==> Before(s, r[i], o)
    ensures AllEligible(s, r + [o]) && Ranked(s, r + [o])
  {
  }

  /** `sort_by_key` on the effective age. */
  function Sorted(s: State, r: seq<nat>): (q: seq<nat>)
    requires AllEligible(s, r)
    ensures AllEligible(s, q) && |q| == |r|
    ensures forall x :: x in q <==> x in r
  {
    if r == [] then [] else
      assert r == r[..|r| - 1] + [r[|r| - 1]];
      Insert(s, Sorted(s, r[..|r| - 1]), r[|r| - 1])
  }

  lemma {:induction false} SortedRanked(s: State, r: seq<nat>)
    requires AllEligible(s, r) && Ascending(r)
    ensures Ranked(s, Sorted(s, r))
  {
    if r != [] {
      var init, last := r[..|r| - 1], r[|r| - 1];
      SortedRanked(s, init);
      InsertRanked(s, Sorted(s, init), last);
    }
  }

  /** `score_orders` (src/async_alloc.rs:253-294). */
  function Candidates(s: State, freed: nat): (r: seq<nat>)
    requires |s.slots| > 0
  {
    assert AllEligible(s, Admitted(s, freed));
    Sorted(s, Admitted(s, freed))
  }

  // ----- operations

  predicate IsLive(entries: map<nat, Entry>, id: nat)
  {
    id in entries && entries[id].state == LIVE
  }

  /** `update_head_timestamp` (src/async_alloc.rs:308-327): the first live entry's time. */
  function HeadOf(entries: map<nat, Entry>, queue: seq<nat>): nat
  {
    if queue == [] then NO_WAITERS_TIMESTAMP
    else if IsLive(entries, queue[0]) then entries[queue[0]].timestamp
    else HeadOf(entries, queue[1..])
  }

  /** What the pop loop of one order does with `budget` pops left. */
  datatype Drained = Drained(rest: seq<nat>, pops: nat, found: Option<nat>)

  function Drain(entries: map<nat, Entry>, queue: seq<nat>, budget: nat): (d: Drained)
    ensures d.pops <= budget && d.pops <= |queue| && d.rest == queue[d.pops..]
    ensures d.found.Some? ==> d.pops > 0 && d.found.value == queue[d.pops - 1] && IsLive(entries, d.found.value)
    ensures forall i :: 0 <= i < d.pops - 1 ==> !IsLive(entries, queue[i])
    ensures d.found.None? ==>
      (d.pops == budget || d.pops == |queue|) && forall i :: 0 <= i < d.pops ==> !IsLive(entries, queue[i])
    decreases budget
  {
    if budget == 0 || queue == [] then Drained(queue, 0, None)
    else if !IsLive(entries, queue[0]) then
      var d := Drain(entries, queue[1..], budget - 1);
      Drained(d.rest, d.pops + 1, d.found)
    else Drained(queue[1..], 1, Some(queue[0]))
  }

  /** Delivery to one entry, its queue being `rest` afterwards (src/async_alloc.rs:354-372). */
  function Deliver(s: State, order: nat, id: nat, rest: seq<nat>, freed: nat): State
    requires order < |s.slots| && id in s.entries
  {
    var ok := s.entries[id].hasTx && id in s.regs && s.regs[id].rxOpen;
    var entry := s.entries[id].(state := WOKEN, hasTx := false, sent := if ok then Some(freed) else s.entries[id].sent);
    var entries := s.entries[id := entry];
    s.(entries := entries,
       slots := s.slots[order := Slot(rest, s.slots[order].count - 1, HeadOf(entries, rest))],
       streak := if ok then UpdatedStreak(s.streak, order) else s.streak,
       log := if ok then s.log + [order] else s.log)
  }

  /** One candidate order of a wake: the state and the pops used so far. */
  function WakeOrder(s: State, order: nat, pops: nat, freed: nat): (r: (State, nat))
    requires order < |s.slots| && pops <= MAX_POPS_PER_WAKE
    ensures |r.0.slots| == |s.slots| && pops <= r.1 <= MAX_POPS_PER_WAKE
  {
    var d := Drain(s.entries, s.slots[order].queue, MAX_POPS_PER_WAKE - pops);
    if d.found.Some? then (Deliver(s, order, d.found.value, d.rest, freed), pops + d.pops)
    else (s.(slots := s.slots[order := s.slots[order].(queue := d.rest)]), pops + d.pops)
  }

  function WakeOrders(s: State, orders: seq<nat>, pops: nat, freed: nat): (r: State)
    requires pops <= MAX_POPS_PER_WAKE && forall i :: 0 <= i < |orders| ==> orders[i] < |s.slots|
    ensures |r.slots| == |s.slots|
    decreases |orders|
  {
    if orders == [] || pops >= MAX_POPS_PER_WAKE then s
    else
      var (s', pops') := WakeOrder(s, orders[0], pops, freed);
      WakeOrders(s', orders[1..], pops', freed)
  }

  /** LIVE to REVOKED, for a registration that is in its queue (src/async_alloc.rs:531-547, 575-592). */
  function RevokeEntry(s: State, id: nat): State
    requires id in s.regs
  {
    var order := s.regs[id].order;
    if s.regs[id].registered && IsLive(s.entries, id) && order < |s.slots|
    then s.(entries := s.entries[id := s.entries[id].(state := REVOKED, hasTx := false)],
            slots := s.slots[order := s.slots[order].(count := s.slots[order].count - 1)])
    else s
  }

  /** `prepare` of an entry not yet queued (src/async_alloc.rs:509-526). */
  function Prepared(s: State, id: nat): State
    requires id in s.regs && s.regs[id].order < |s.slots| && id in s.entries
  {
    var o := s.regs[id].order;
    var slot := s.slots[o];
    s.(slots := s.slots[o := Slot(slot.queue + [id], slot.count + 1,
                                  if slot.count == 0 then s.entries[id].timestamp else slot.headTimestamp)],
       regs := s.regs[id := s.regs[id].(registered := true, pending := false)])
  }

  /** One whole operation. */
  function Apply(s: State, e: Event): (r: State)
    requires |s.slots| > 0
    ensures |r.slots| == |s.slots|
  {
    match e
    case Register(order, timestamp) =>
      s.(entries := s.entries[s.next := Entry(LIVE, true, timestamp, None)],
         regs := s.regs[s.next := Registration(if order < |s.slots| then order else |s.slots| - 1, false, true, true)],
         next := s.next + 1)
    case Prepare(id) =>
      if id in s.regs && !s.regs[id].registered && s.regs[id].pending && s.regs[id].order < |s.slots| && id in s.entries
      then Prepared(s, id)
      else s
    case Revoke(id) =>
      if id in s.regs && s.regs[id].registered
      then var s' := RevokeEntry(s, id); s'.(regs := s'.regs[id := s.regs[id].(registered := false)])
      else s
    case Poll(id) =>
      if id in s.regs && s.regs[id].rxOpen && id in s.entries && (s.entries[id].sent.Some? || !s.entries[id].hasTx)
      then s.(regs := s.regs[id := s.regs[id].(rxOpen := false, registered := false)])
      else s
    case Drop(id) =>
      if id in s.regs
      then var s' := RevokeEntry(s, id); s'.(regs := s'.regs - {id})
      else s
    case Wake(freed) =>
      assert forall i :: 0 <= i < |Candidates(s, freed)| ==> Eligible(s, Candidates(s, freed)[i]);
      WakeOrders(s, Candidates(s, freed), 0, freed)
  }

  function Init(orders: nat): State
  {
    State(seq(orders, i => Slot([], 0, NO_WAITERS_TIMESTAMP)), map[], map[], 0, 0, [])
  }

  function Run(s: State, es: seq<Event>): (r: State)
    requires |s.slots| > 0
    ensures |r.slots| == |s.slots|
  {
    if es == [] then s else Apply(Run(s, es[..|es| - 1]), es[|es| - 1])
  }

  // ----- the invariant

  ghost function LiveIn(entries: map<nat, Entry>, queue: seq<nat>): set<nat>
  {
    set id | id in queue && IsLive(entries, id)
  }

  predicate Distinct(q: seq<nat>)
  {
    forall i, j :: 0 <= i < j < |q| ==> q[i] != q[j]
  }

  /** The count is the number of live queued entries, the head timestamp is a real time
      while there is one, and each of them has an open, registered waiter. */
  ghost predicate SlotOk(s: State, o: nat)
    requires o < |s.slots|
  {
    var slot := s.slots[o];
    && Distinct(slot.queue)
    && (forall id :: id in slot.queue ==> id in s.entries)
    && (forall id :: id in slot.queue && IsLive(s.entries, id) ==> Waiting(s, id, o))
    && slot.count == |LiveIn(s.entries, slot.queue)|
    && (slot.count > 0 ==> slot.headTimestamp < NO_WAITERS_TIMESTAMP)
  }

  predicate Waiting(s: State, id: nat, o: nat)
  {
    id in s.regs && s.regs[id].registered && !s.regs[id].pending && s.regs[id].rxOpen && s.regs[id].order == o
  }

  ghost predicate NowhereQueued(s: State, id: nat)
  {
    forall o: nat :: o < |s.slots| ==> id !in s.slots[o].queue
  }

  /** A registration is either still to be prepared, or its live entry is in its queue. */
  ghost predicate RegOk(s: State, id: nat)
    requires id in s.regs
  {
    var reg := s.regs[id];
    && id in s.entries && reg.order < |s.slots|
    && (reg.pending ==> IsLive(s.entries, id) && !reg.registered && reg.rxOpen && NowhereQueued(s, id))
    && (!reg.pending && IsLive(s.entries, id) ==> id in s.slots[reg.order].queue)
  }

  ghost predicate EntryOk(s: State, id: nat)
    requires id in s.entries
  {
    && id < s.next && s.entries[id].timestamp < NO_WAITERS_TIMESTAMP
    && (s.entries[id].hasTx <==> s.entries[id].state == LIVE)
    && (s.entries[id].sent.Some? ==> s.entries[id].state == WOKEN)
  }

  ghost predicate QueuesDisjoint(s: State)
  {
    forall o: nat, p: nat, id :: o < p < |s.slots| && id in s.slots[o].queue ==> id !in s.slots[p].queue
  }

  ghost predicate Inv(s: State)
  {
    && |s.slots| > 0
    && (forall o: nat :: o < |s.slots| ==> SlotOk(s, o))
    && (forall id :: id in s.regs ==> RegOk(s, id))
    && (forall id :: id in s.entries ==> EntryOk(s, id))
    && QueuesDisjoint(s)
  }

  lemma InvInitial(orders: nat)
    requires orders > 0
    ensures Inv(Init(orders))
  {
    var s := Init(orders);
    forall o: nat | o < |s.slots| ensures SlotOk(s, o) {
      assert LiveIn(s.entries, s.slots[o].queue) == {};
    }
  }

  lemma RegisterKeeps(s: State, order: nat, timestamp: nat)
    requires Inv(s) && timestamp < NO_WAITERS_TIMESTAMP
    ensures Inv(Apply(s, Register(order, timestamp)))
  {
    var s' := Apply(s, Register(order, timestamp));
    forall o: nat | o < |s.slots| ensures SlotOk(s', o) && s.next !in s.slots[o].queue {
      assert SlotOk(s, o);
      forall id | id in s.slots[o].queue ensures id != s.next { assert EntryOk(s, id); }
      assert LiveIn(s'.entries, s'.slots[o].queue) == LiveIn(s.entries, s.slots[o].queue);
    }
    forall id | id in s'.regs ensures RegOk(s', id) {
      if id != s.next { assert RegOk(s, id) && EntryOk(s, id); }
    }
    forall id | id in s'.entries ensures EntryOk(s', id) {
      if id != s.next { assert EntryOk(s, id); }
    }
  }

  lemma PrepareKeeps(s: State, id: nat)
    requires Inv(s)
    ensures Inv(Apply(s, Prepare(id)))
  {
    hide SlotOk, RegOk, EntryOk;
    var s' := Apply(s, Prepare(id));
    if s' != s {
      assert RegOk(s, id) && EntryOk(s, id);
      PreparedQueues(s, id);
      forall p: nat | p < |s.slots| ensures SlotOk(s', p) { PreparedSlot(s, id, p); }
      forall x | x in s'.regs ensures RegOk(s', x) { PreparedReg(s, id, x); }
      forall x | x in s'.entries ensures EntryOk(s', x) { SameEntryOk(s, s', x); }
    }
  }

  lemma SameEntryOk(s: State, s': State, x: nat)
    requires x in s.entries && EntryOk(s, x) && x in s'.entries && s'.entries[x] == s.entries[x] && s'.next == s.next
    ensures EntryOk(s', x)
  {
  }

  /** The entry a first prepare moves into its queue. */
  ghost predicate Preparable(s: State, id: nat)
  {
    && id in s.regs && id in s.entries && s.regs[id].pending && !s.regs[id].registered
    && s.regs[id].order < |s.slots| && RegOk(s, id) && EntryOk(s, id)
  }

  lemma PreparedQueues(s: State, id: nat)
    requires QueuesDisjoint(s) && Preparable(s, id)
    ensures QueuesDisjoint(Prepared(s, id))
  {
  }

  lemma PreparedSlot(s: State, id: nat, p: nat)
    requires p < |s.slots| && SlotOk(s, p) && Preparable(s, id)
    ensures SlotOk(Prepared(s, id), p)
  {
    hide Preparable;
    PreparableFacts(s, id, p);
    var s' := Prepared(s, id);
    if p == s.regs[id].order {
      var q := s.slots[p].queue;
      LiveSnoc(s.entries, q, id);
    } else {
      assert s'.slots[p] == s.slots[p];
    }
  }

  lemma PreparableFacts(s: State, id: nat, p: nat)
    requires p < |s.slots| && Preparable(s, id)
    ensures id !in s.slots[p].queue && id in s.regs && id in s.entries && s.regs[id].order < |s.slots|
    ensures IsLive(s.entries, id) && s.entries[id].timestamp < NO_WAITERS_TIMESTAMP && s.regs[id].rxOpen
  {
  }

  lemma LiveSnoc(entries: map<nat, Entry>, q: seq<nat>, id: nat)
    requires id !in q && IsLive(entries, id) && Distinct(q)
    ensures LiveIn(entries, q + [id]) == LiveIn(entries, q) + {id}
    ensures |LiveIn(entries, q + [id])| == |LiveIn(entries, q)| + 1 && Distinct(q + [id])
  {
    assert LiveIn(entries, q) * {id} == {};
    assert LiveIn(entries, q + [id]) == LiveIn(entries, q) + {id};
  }

  lemma PreparedReg(s: State, id: nat, x: nat)
    requires x in s.regs && RegOk(s, x) && Preparable(s, id)
    ensures RegOk(Prepared(s, id), x)
  {
  }

  /** Leaving LIVE, with the count taken down: the part revoke, drop and delivery share. */
  lemma RevokeEntryKeeps(s: State, id: nat)
    requires Inv(s) && id in s.regs
    ensures var s' := RevokeEntry(s, id);
            Inv(s') && s'.regs == s.regs && !(s.regs[id].registered && IsLive(s'.entries, id))
  {
    var s' := RevokeEntry(s, id);
    assert RegOk(s, id);
    if s' != s {
      forall p: nat | p < |s.slots| ensures SlotOk(s', p) { RevokedSlot(s, id, p); }
      forall x | x in s'.regs ensures RegOk(s', x) { assert RegOk(s, x); }
      forall x | x in s'.entries ensures EntryOk(s', x) { assert EntryOk(s, x); }
    }
  }

  lemma RevokedSlot(s: State, id: nat, p: nat)
    requires Inv(s) && id in s.regs && p < |s.slots| && IsLive(s.entries, id) && s.regs[id].registered
    ensures SlotOk(RevokeEntry(s, id), p)
  {
    hide Inv, NowhereQueued, RegOk, EntryOk, LiveIn;
    SlotOf(s, p);
    RevocableFacts(s, id, p);
    LiveAfter(s, RevokeEntry(s, id).entries, id, p);
  }

  lemma RevocableFacts(s: State, id: nat, p: nat)
    requires Inv(s) && id in s.regs && p < |s.slots| && IsLive(s.entries, id) && s.regs[id].registered
    ensures s.regs[id].order < |s.slots| && (id in s.slots[p].queue <==> p == s.regs[id].order)
  {
    assert RegOk(s, id);
  }

  /** Only the queue of `id` loses a live entry when `id` leaves LIVE. */
  lemma LiveAfter(s: State, entries: map<nat, Entry>, id: nat, p: nat)
    requires p < |s.slots| && id in s.entries && IsLive(s.entries, id)
    requires entries.Keys == s.entries.Keys && entries[id].state != LIVE
    requires forall x :: x in entries && x != id ==> entries[x] == s.entries[x]
    ensures LiveIn(entries, s.slots[p].queue) == LiveIn(s.entries, s.slots[p].queue) - {id}
    ensures id !in s.slots[p].queue ==> LiveIn(entries, s.slots[p].queue) == LiveIn(s.entries, s.slots[p].queue)
    ensures id in s.slots[p].queue ==>
              |LiveIn(entries, s.slots[p].queue)| == |LiveIn(s.entries, s.slots[p].queue)| - 1
  {
    assert LiveIn(entries, s.slots[p].queue) == LiveIn(s.entries, s.slots[p].queue) - {id};
  }

  lemma RevokeKeeps(s: State, id: nat)
    requires Inv(s)
    ensures Inv(Apply(s, Revoke(id)))
  {
    if id in s.regs && s.regs[id].registered {
      RevokeEntryKeeps(s, id);
      RegUpdateKeeps(RevokeEntry(s, id), id, s.regs[id].(registered := false));
    }
  }

  /** Changing the bookkeeping of a registration whose entry is not live. */
  lemma RegUpdateKeeps(s: State, id: nat, reg: Registration)
    requires Inv(s) && id in s.regs && !IsLive(s.entries, id)
    requires reg.order == s.regs[id].order && reg.pending == s.regs[id].pending
    ensures Inv(s.(regs := s.regs[id := reg]))
  {
    var s' := s.(regs := s.regs[id := reg]);
    assert RegOk(s, id);
    forall p: nat | p < |s.slots| ensures SlotOk(s', p) { assert SlotOk(s, p); }
    forall x | x in s'.regs ensures RegOk(s', x) { assert RegOk(s, x); }
    forall x | x in s'.entries ensures EntryOk(s', x) { assert EntryOk(s, x); }
  }

  lemma PollKeeps(s: State, id: nat)
    requires Inv(s)
    ensures Inv(Apply(s, Poll(id)))
    ensures IsLive(s.entries, id) ==> Apply(s, Poll(id)) == s
  {
    if id in s.entries { assert EntryOk(s, id); }
    if Apply(s, Poll(id)) != s {
      RegUpdateKeeps(s, id, s.regs[id].(rxOpen := false, registered := false));
    }
  }

  lemma DropKeeps(s: State, id: nat)
    requires Inv(s)
    ensures Inv(Apply(s, Drop(id)))
  {
    if id in s.regs {
      RevokeEntryKeeps(s, id);
      var s1 := RevokeEntry(s, id);
      var s' := Apply(s, Drop(id));
      assert RegOk(s1, id);
      forall p: nat | p < |s'.slots| ensures SlotOk(s', p) { assert SlotOk(s1, p); }
      forall x | x in s'.regs ensures RegOk(s', x) { assert RegOk(s1, x); }
      forall x | x in s'.entries ensures EntryOk(s', x) { assert EntryOk(s1, x); }
    }
  }

  /** Popping tombstones changes no live entry. */
  lemma TombstonesKeep(s: State, o: nat, pops: nat)
    requires Inv(s) && o < |s.slots| && pops <= |s.slots[o].queue|
    requires forall i :: 0 <= i < pops ==> !IsLive(s.entries, s.slots[o].queue[i])
    ensures Inv(s.(slots := s.slots[o := s.slots[o].(queue := s.slots[o].queue[pops..])]))
  {
    hide SlotOk, RegOk, EntryOk;
    var q := s.slots[o].queue;
    var s' := s.(slots := s.slots[o := s.slots[o].(queue := q[pops..])]);
    LivePartKept(s.entries, q, pops);
    assert forall p: nat, id :: p < |s.slots| && id in s'.slots[p].queue ==> id in s.slots[p].queue;
    forall p: nat | p < |s'.slots| ensures SlotOk(s', p) { SlotTrimmed(s, o, q[pops..], p); }
    forall x | x in s'.regs ensures RegOk(s', x) { RegTrimmed(s, o, q[pops..], x); }
    forall x | x in s'.entries ensures EntryOk(s', x) { EntryTrimmed(s, o, q[pops..], x); }
  }

  /** `rest` is what is left of `queue` once some tombstones are gone. */
  ghost predicate Trimmed(entries: map<nat, Entry>, queue: seq<nat>, rest: seq<nat>)
  {
    && (forall id :: id in rest ==> id in queue)
    && (forall id :: id in queue && IsLive(entries, id) ==> id in rest)
    && LiveIn(entries, rest) == LiveIn(entries, queue) && (Distinct(queue) ==> Distinct(rest))
  }

  lemma LivePartKept(entries: map<nat, Entry>, queue: seq<nat>, pops: nat)
    requires pops <= |queue| && forall i :: 0 <= i < pops ==> !IsLive(entries, queue[i])
    ensures Trimmed(entries, queue, queue[pops..])
  {
    var rest := queue[pops..];
    forall id | id in queue && IsLive(entries, id) ensures id in rest {
      var k :| 0 <= k < |queue| && queue[k] == id;
      assert rest[k - pops] == id;
    }
    assert LiveIn(entries, rest) == LiveIn(entries, queue);
  }

  lemma SlotTrimmed(s: State, o: nat, rest: seq<nat>, p: nat)
    requires Inv(s) && o < |s.slots| && p < |s.slots| && Trimmed(s.entries, s.slots[o].queue, rest)
    ensures SlotOk(s.(slots := s.slots[o := s.slots[o].(queue := rest)]), p)
  {
    assert SlotOk(s, p);
  }

  lemma RegTrimmed(s: State, o: nat, rest: seq<nat>, x: nat)
    requires Inv(s) && o < |s.slots| && x in s.regs && Trimmed(s.entries, s.slots[o].queue, rest)
    ensures RegOk(s.(slots := s.slots[o := s.slots[o].(queue := rest)]), x)
  {
    hide SlotOk, EntryOk, LiveIn;
    assert RegOk(s, x);
  }

  lemma EntryTrimmed(s: State, o: nat, rest: seq<nat>, x: nat)
    requires Inv(s) && o < |s.slots| && x in s.entries
    ensures EntryOk(s.(slots := s.slots[o := s.slots[o].(queue := rest)]), x)
  {
    hide SlotOk, RegOk;
    assert EntryOk(s, x);
  }

  lemma {:induction false} HeadOfLive(entries: map<nat, Entry>, queue: seq<nat>)
    requires forall id :: id in queue && id in entries ==> entries[id].timestamp < NO_WAITERS_TIMESTAMP
    ensures HeadOf(entries, queue) < NO_WAITERS_TIMESTAMP <==> LiveIn(entries, queue) != {}
    ensures HeadOf(entries, queue) <= NO_WAITERS_TIMESTAMP
  {
    if queue == [] {
      assert LiveIn(entries, queue) == {};
    } else if IsLive(entries, queue[0]) {
      assert queue[0] in LiveIn(entries, queue);
    } else {
      forall id | id in queue[1..] && id in entries ensures entries[id].timestamp < NO_WAITERS_TIMESTAMP {
        assert id in queue;
      }
      HeadOfLive(entries, queue[1..]);
      assert LiveIn(entries, queue) == LiveIn(entries, queue[1..]) by {
        assert forall id :: id in queue <==> id == queue[0] || id in queue[1..];
      }
    }
  }

  /** Delivering to the live entry at the front of its queue; the send always succeeds, for
      the waiter of a live queued entry still listens. */
  lemma DeliverKeeps(s: State, o: nat, freed: nat)
    requires Inv(s) && o < |s.slots| && s.slots[o].queue != [] && IsLive(s.entries, s.slots[o].queue[0])
    ensures var id := s.slots[o].queue[0];
            var s' := Deliver(s, o, id, s.slots[o].queue[1..], freed);
            && Inv(s') && s'.entries[id].state == WOKEN && s'.entries[id].sent == Some(freed)
            && s'.log == s.log + [o] && s'.streak == UpdatedStreak(s.streak, o)
  {
    hide UpdatedStreak, SlotOk, RegOk, EntryOk, HeadOf;
    var q := s.slots[o].queue;
    var id, rest := q[0], q[1..];
    var s' := Deliver(s, o, id, rest, freed);
    FrontIn(s, o);
    DeliveredEntry(s, o, freed);
    forall p: nat | p < |s'.slots| ensures SlotOk(s', p) { DeliveredSlot(s, o, freed, p); }
    forall x | x in s'.regs ensures RegOk(s', x) { assert RegOk(s, x); DeliveredReg(s, o, freed, x); }
    forall x | x in s'.entries ensures EntryOk(s', x) { DeliveredEntries(s, o, freed, x); }
    assert forall p: nat, x :: p < |s.slots| && x in s'.slots[p].queue ==> x in s.slots[p].queue;
  }

  /** The front of a queue that a wake delivers to. */
  ghost predicate Deliverable(s: State, o: nat)
  {
    && o < |s.slots| && s.slots[o].queue != [] && IsLive(s.entries, s.slots[o].queue[0])
    && EntryOk(s, s.slots[o].queue[0]) && Waiting(s, s.slots[o].queue[0], o)
    && (forall p: nat :: p < |s.slots| && p != o ==> s.slots[o].queue[0] !in s.slots[p].queue)
  }

  lemma FrontIn(s: State, o: nat)
    requires Inv(s) && o < |s.slots| && s.slots[o].queue != [] && IsLive(s.entries, s.slots[o].queue[0])
    ensures Deliverable(s, o)
  {
    assert SlotOk(s, o);
    assert s.slots[o].queue[0] in s.slots[o].queue;
  }

  lemma DeliveredEntry(s: State, o: nat, freed: nat)
    requires Deliverable(s, o)
    ensures var id := s.slots[o].queue[0];
            var s' := Deliver(s, o, id, s.slots[o].queue[1..], freed);
            && s'.entries[id] == s.entries[id].(state := WOKEN, hasTx := false, sent := Some(freed))
            && s'.log == s.log + [o] && s'.streak == UpdatedStreak(s.streak, o)
  {
    hide UpdatedStreak, HeadOf;
  }

  lemma DeliveredSlot(s: State, o: nat, freed: nat, p: nat)
    requires Inv(s) && Deliverable(s, o) && p < |s.slots|
    ensures SlotOk(Deliver(s, o, s.slots[o].queue[0], s.slots[o].queue[1..], freed), p)
  {
    hide UpdatedStreak, HeadOf, Inv, RegOk, SlotOk, EntryOk;
    var s' := Deliver(s, o, s.slots[o].queue[0], s.slots[o].queue[1..], freed);
    if p == o { OwnSlotDelivered(s, o, s'); } else { OtherSlotDelivered(s, o, s', p); }
  }

  lemma OwnSlotDelivered(s: State, o: nat, s': State)
    requires Inv(s) && Deliverable(s, o) && s'.regs == s.regs
    requires s'.entries.Keys == s.entries.Keys && |s'.slots| == |s.slots|
    requires var id := s.slots[o].queue[0];
             && s'.entries == s.entries[id := s'.entries[id]] && s'.entries[id].state != LIVE
             && s'.entries[id].timestamp == s.entries[id].timestamp
    requires s'.slots[o] == Slot(s.slots[o].queue[1..], s.slots[o].count - 1, HeadOf(s'.entries, s.slots[o].queue[1..]))
    ensures SlotOk(s', o)
  {
    hide HeadOf, Inv, RegOk, EntryOk;
    SlotOf(s, o);
    DeliveredHead(s, o, s'.entries);
    LiveAfter(s, s'.entries, s.slots[o].queue[0], o);
  }

  lemma OtherSlotDelivered(s: State, o: nat, s': State, p: nat)
    requires Inv(s) && Deliverable(s, o) && s'.regs == s.regs
    requires s'.entries.Keys == s.entries.Keys && |s'.slots| == |s.slots|
    requires var id := s.slots[o].queue[0];
             s'.entries == s.entries[id := s'.entries[id]] && s'.entries[id].state != LIVE
    requires p < |s.slots| && p != o && s'.slots[p] == s.slots[p]
    ensures SlotOk(s', p)
  {
    hide HeadOf, Inv, RegOk, EntryOk;
    SlotOf(s, p);
    LiveAfter(s, s'.entries, s.slots[o].queue[0], p);
  }

  lemma SlotOf(s: State, p: nat)
    requires Inv(s) && p < |s.slots|
    ensures SlotOk(s, p) && forall x :: x in s.entries ==> EntryOk(s, x)
  {
  }

  lemma DeliveredHead(s: State, o: nat, entries: map<nat, Entry>)
    requires Inv(s) && Deliverable(s, o) && entries.Keys == s.entries.Keys
    requires forall x :: x in entries ==> entries[x].timestamp == s.entries[x].timestamp
    requires !IsLive(entries, s.slots[o].queue[0])
    ensures var q := s.slots[o].queue;
            && LiveIn(entries, q[1..]) == LiveIn(entries, q)
            && q[0] in q && Distinct(q[1..]) && (forall x :: x in q[1..] ==> x in q && x != q[0])
            && (HeadOf(entries, q[1..]) < NO_WAITERS_TIMESTAMP <==> LiveIn(entries, q[1..]) != {})
  {
    hide HeadOf, Inv, RegOk;
    SlotOf(s, o);
    var q := s.slots[o].queue;
    assert forall x :: x in q <==> x in q[1..] || x == q[0];
    forall x | x in q[1..] && x in entries ensures entries[x].timestamp < NO_WAITERS_TIMESTAMP { assert EntryOk(s, x); }
    HeadOfLive(entries, q[1..]);
  }

  lemma DeliveredReg(s: State, o: nat, freed: nat, x: nat)
    requires Deliverable(s, o) && x in s.regs && RegOk(s, x)
    ensures RegOk(Deliver(s, o, s.slots[o].queue[0], s.slots[o].queue[1..], freed), x)
  {
    hide UpdatedStreak, HeadOf;
    var q := s.slots[o].queue;
    assert q[0] in q;
    assert forall y :: y in q <==> y in q[1..] || y == q[0];
  }

  lemma DeliveredEntries(s: State, o: nat, freed: nat, x: nat)
    requires Inv(s) && Deliverable(s, o) && x in s.entries
    ensures EntryOk(Deliver(s, o, s.slots[o].queue[0], s.slots[o].queue[1..], freed), x)
  {
    hide UpdatedStreak, HeadOf, SlotOk, RegOk;
    assert EntryOk(s, x);
  }

  /** The state with the tombstones before the delivered entry popped. */
  function Popped(s: State, o: nat, pops: nat): State
    requires o < |s.slots| && pops <= |s.slots[o].queue|
  {
    s.(slots := s.slots[o := s.slots[o].(queue := s.slots[o].queue[pops..])])
  }

  /** What one candidate order of a wake does. */
  ghost predicate Woke(s: State, s': State, o: nat, d: Drained, freed: nat)
    requires o < |s.slots|
  {
    && |s'.slots| == |s.slots| && s'.regs == s.regs && s'.next == s.next
    && s'.slots[o].queue == d.rest
    && (forall p: nat :: p < |s.slots| && p != o ==> s'.slots[p] == s.slots[p])
    && s'.entries.Keys == s.entries.Keys
    && (d.found.None? ==> s' == s.(slots := s'.slots))
    && (d.found.Some? ==>
         && d.found.value in s.entries
         && s'.entries == s.entries[d.found.value :=
                            s.entries[d.found.value].(state := WOKEN, hasTx := false, sent := Some(freed))]
         && s'.log == s.log + [o] && s'.streak == UpdatedStreak(s.streak, o))
  }

  lemma WakeOrderKeeps(s: State, o: nat, pops: nat, freed: nat)
    requires Inv(s) && o < |s.slots| && pops <= MAX_POPS_PER_WAKE
    ensures var d := Drain(s.entries, s.slots[o].queue, MAX_POPS_PER_WAKE - pops);
            var s' := WakeOrder(s, o, pops, freed).0;
            Inv(s') && Woke(s, s', o, d, freed)
  {
    hide Inv, UpdatedStreak, HeadOf;
    var q := s.slots[o].queue;
    var d := Drain(s.entries, q, MAX_POPS_PER_WAKE - pops);
    if d.found.None? {
      TombstonesKeep(s, o, d.pops);
    } else {
      var s1 := Popped(s, o, d.pops - 1);
      TombstonesKeep(s, o, d.pops - 1);
      assert s1.slots[o].queue[0] == d.found.value && s1.slots[o].queue[1..] == d.rest;
      DeliverKeeps(s1, o, freed);
      assert Deliver(s1, o, d.found.value, d.rest, freed) == Deliver(s, o, d.found.value, d.rest, freed);
    }
  }

  lemma {:induction false} WakeOrdersKeep(s: State, orders: seq<nat>, pops: nat, freed: nat)
    requires Inv(s) && pops <= MAX_POPS_PER_WAKE && forall i :: 0 <= i < |orders| ==> orders[i] < |s.slots|
    ensures Inv(WakeOrders(s, orders, pops, freed))
    decreases |orders|
  {
    hide Inv, Woke, WakeOrder, Drain;
    if orders != [] && pops < MAX_POPS_PER_WAKE {
      var (s', pops') := WakeOrder(s, orders[0], pops, freed);
      WakeOrderKeeps(s, orders[0], pops, freed);
      WakeOrdersKeep(s', orders[1..], pops', freed);
    }
  }

  lemma CandidatesInRange(s: State, freed: nat)
    requires |s.slots| > 0
    ensures forall i :: 0 <= i < |Candidates(s, freed)| ==> Eligible(s, Candidates(s, freed)[i])
  {
  }

  ghost predicate TimestampsBelow(e: Event)
  {
    e.Register? ==> e.timestamp < NO_WAITERS_TIMESTAMP
  }

  lemma InvStep(s: State, e: Event)
    requires Inv(s) && TimestampsBelow(e)
    ensures Inv(Apply(s, e))
  {
    assert |s.slots| > 0;
    hide Inv;
    match e {
      case Register(order, timestamp) => RegisterKeeps(s, order, timestamp);
      case Prepare(id) => PrepareKeeps(s, id);
      case Revoke(id) => RevokeKeeps(s, id);
      case Poll(id) => PollKeeps(s, id);
      case Drop(id) => DropKeeps(s, id);
      case Wake(freed) =>
        CandidatesInRange(s, freed);
        WakeOrdersKeep(s, Candidates(s, freed), 0, freed);
    }
  }

  lemma {:induction false} InvRun(orders: nat, es: seq<Event>)
    requires orders > 0 && forall i :: 0 <= i < |es| ==> TimestampsBelow(es[i])
    ensures Inv(Run(Init(orders), es))
  {
    hide Inv, Apply;
    if es == [] {
      InvInitial(orders);
    } else {
      InvRun(orders, es[..|es| - 1]);
      InvStep(Run(Init(orders), es[..|es| - 1]), es[|es| - 1]);
    }
  }

  // ----- no invisible waiter

  /** The candidates of a wake are exactly the eligible orders it can serve, less the banned
      one, oldest effective age first; the ban never empties the list. */
  lemma CandidatesExact(s: State, freed: nat)
    requires |s.slots| > 0
    ensures var all := Collect(s, if freed < |s.slots| then freed + 1 else |s.slots|);
            && (forall o: nat :: o in Candidates(s, freed) <==>
                  Eligible(s, o) && o <= freed && !(Banning(s, all) && o == LastWinner(s.streak)))
            && (all != [] ==> Candidates(s, freed) != [])
    ensures AllEligible(s, Candidates(s, freed)) && Ranked(s, Candidates(s, freed))
  {
    var all := Collect(s, if freed < |s.slots| then freed + 1 else |s.slots|);
    var admitted := Admitted(s, freed);
    SortedRanked(s, admitted);
    if all != [] {
      if Banning(s, all) {
        var other := if all[0] == LastWinner(s.streak) then all[1] else all[0];
        assert other in all && other in admitted;
      } else {
        assert all[0] in admitted;
      }
    }
  }

  /** After any run, an order with a live queued entry has a positive count and a real head
      time, so every wake that can serve it considers it unless the streak ban excludes it. */
  lemma NoInvisibleWaiter(orders: nat, es: seq<Event>, o: nat, id: nat, freed: nat)
    requires orders > 0 && forall i :: 0 <= i < |es| ==> TimestampsBelow(es[i])
    requires var s := Run(Init(orders), es);
             o < |s.slots| && id in s.slots[o].queue && IsLive(s.entries, id) && o <= freed
    ensures var s := Run(Init(orders), es);
            && s.slots[o].count > 0 && s.slots[o].headTimestamp != NO_WAITERS_TIMESTAMP
            && (o in Candidates(s, freed)
                || (&& StreakCount(s.streak) >= MAX_CONSECUTIVE && LastWinner(s.streak) == o
                    && Candidates(s, freed) != []))
  {
    InvRun(orders, es);
    var s := Run(Init(orders), es);
    QueuedIsEligible(s, o, id);
    CandidatesExact(s, freed);
    var all := Collect(s, if freed < |s.slots| then freed + 1 else |s.slots|);
    assert o in all;
  }

  lemma QueuedIsEligible(s: State, o: nat, id: nat)
    requires Inv(s) && o < |s.slots| && id in s.slots[o].queue && IsLive(s.entries, id)
    ensures Eligible(s, o)
  {
    assert SlotOk(s, o);
    assert id in LiveIn(s.entries, s.slots[o].queue);
  }

  /** After any run, a prepared registration whose entry is live is in its queue: no wake
      loses an entry it popped. */
  lemma NoStrandedWaiter(orders: nat, es: seq<Event>, id: nat)
    requires orders > 0 && forall i :: 0 <= i < |es| ==> TimestampsBelow(es[i])
    ensures var s := Run(Init(orders), es);
            id in s.regs && !s.regs[id].pending && IsLive(s.entries, id) ==>
              s.regs[id].order < |s.slots| && id in s.slots[s.regs[id].order].queue
  {
    InvRun(orders, es);
    var s := Run(Init(orders), es);
    if id in s.regs { assert RegOk(s, id); }
  }

  // ----- the streak and its ban

  /** How often the last order of the log was served in a row. */
  function RunLength(log: seq<nat>): (n: nat)
    ensures log != [] ==> n > 0
  {
    if log == [] then 0
    else if |log| > 1 && log[|log| - 2] == log[|log| - 1] then 1 + RunLength(log[..|log| - 1])
    else 1
  }

  lemma RunLengthSnoc(log: seq<nat>, o: nat)
    ensures RunLength(log + [o]) == if log != [] && log[|log| - 1] == o then 1 + RunLength(log) else 1
  {
    assert (log + [o])[..|log|] == log;
  }

  /** The packed word decodes to the last winner and its saturating run length. */
  ghost predicate StreakExact(s: State)
  {
    && |s.slots| <= U32_MAX
    && (forall i :: 0 <= i < |s.log| ==> s.log[i] < |s.slots|)
    && s.streak == (if s.log == [] then 0
                    else s.log[|s.log| - 1] * (U32_MAX + 1)
                         + (if RunLength(s.log) < U32_MAX then RunLength(s.log) else U32_MAX))
  }

  lemma PackIs(winner: nat, run: nat)
    requires run <= U32_MAX
    ensures Pack(winner, run) == winner * (U32_MAX + 1) + run
    ensures LastWinner(Pack(winner, run)) == winner && StreakCount(Pack(winner, run)) == run
  {
    Pow2Is32();
    OrPacks(winner, 32, run);
    DivModUnique(winner, run, U32_MAX + 1, winner * (U32_MAX + 1) + run);
  }

  lemma Pow2Is32()
    ensures Pow2(32) == U32_MAX + 1
  {
    assert Pow2(8) == 256;
    Pow2Add(8, 8);
    Pow2Add(16, 16);
  }

  lemma StreakDecodes(s: State)
    requires StreakExact(s)
    ensures s.log == [] ==> LastWinner(s.streak) == 0 && StreakCount(s.streak) == 0
    ensures s.log != [] ==>
              && LastWinner(s.streak) == s.log[|s.log| - 1]
              && StreakCount(s.streak) == if RunLength(s.log) < U32_MAX then RunLength(s.log) else U32_MAX
  {
    if s.log != [] {
      var run := if RunLength(s.log) < U32_MAX then RunLength(s.log) else U32_MAX;
      DivModUnique(s.log[|s.log| - 1], run, U32_MAX + 1, s.streak);
    }
  }

  lemma StreakUpdate(s: State, o: nat)
    requires StreakExact(s) && o < |s.slots|
    ensures StreakExact(s.(streak := UpdatedStreak(s.streak, o), log := s.log + [o]))
  {
    StreakDecodes(s);
    RunLengthSnoc(s.log, o);
    PackIs(o, 1);
    var run := StreakCount(s.streak);
    PackIs(o, if run < U32_MAX then run + 1 else U32_MAX);
  }

  /** The deliveries a wake adds to the log: each candidate order at most once, in turn. */
  ghost predicate AddsTo(log: seq<nat>, log': seq<nat>, orders: seq<nat>)
  {
    && |log| <= |log'| && log'[..|log|] == log
    && (forall k :: |log| <= k < |log'| ==> log'[k] in orders)
    && (forall j, k :: |log| <= j < k < |log'| ==> log'[j] != log'[k])
  }

  lemma {:induction false} WakeStreak(s: State, orders: seq<nat>, pops: nat, freed: nat)
    requires Inv(s) && StreakExact(s) && pops <= MAX_POPS_PER_WAKE && Distinct(orders)
    requires forall i :: 0 <= i < |orders| ==> orders[i] < |s.slots|
    ensures StreakExact(WakeOrders(s, orders, pops, freed))
    ensures AddsTo(s.log, WakeOrders(s, orders, pops, freed).log, orders)
    decreases |orders|
  {
    hide Inv, WakeOrder, Drain, UpdatedStreak;
    if orders != [] && pops < MAX_POPS_PER_WAKE {
      var o := orders[0];
      var (s', pops') := WakeOrder(s, o, pops, freed);
      WakeOrderKeeps(s, o, pops, freed);
      StreakUpdate(s, o);
      WakeStreak(s', orders[1..], pops', freed);
      AddsToCons(s.log, s'.log, WakeOrders(s', orders[1..], pops', freed).log, orders);
    }
  }

  lemma AddsToCons(log: seq<nat>, log1: seq<nat>, log2: seq<nat>, orders: seq<nat>)
    requires orders != [] && Distinct(orders) && (log1 == log || log1 == log + [orders[0]])
    requires AddsTo(log1, log2, orders[1..])
    ensures AddsTo(log, log2, orders)
  {
    assert log2[..|log|] == log1[..|log|];
    assert forall x :: x in orders[1..] ==> x in orders && x != orders[0];
    forall k | |log| <= k < |log2| ensures log2[k] in orders {
      if k < |log1| { assert log2[k] == log2[..|log1|][k]; }
    }
    forall j, k | |log| <= j < k < |log2| ensures log2[j] != log2[k] {
      if j < |log1| { assert log2[j] == log2[..|log1|][j]; }
    }
  }

  lemma StreakStep(s: State, e: Event)
    requires Inv(s) && StreakExact(s)
    ensures StreakExact(Apply(s, e))
  {
    if e.Wake? {
      RankedDistinct(s, e.freed);
      WakeStreak(s, Candidates(s, e.freed), 0, e.freed);
    }
  }

  lemma RankedDistinct(s: State, freed: nat)
    requires |s.slots| > 0
    ensures Distinct(Candidates(s, freed))
    ensures forall i :: 0 <= i < |Candidates(s, freed)| ==> Candidates(s, freed)[i] < |s.slots|
  {
    CandidatesExact(s, freed);
    var r := Candidates(s, freed);
    forall i, j | 0 <= i < j < |r| ensures r[i] != r[j] { assert Before(s, r[i], r[j]); }
    forall i | 0 <= i < |r| ensures r[i] < |s.slots| { assert Eligible(s, r[i]); }
  }

  lemma {:induction false} StreakRun(orders: nat, es: seq<Event>)
    requires 0 < orders <= U32_MAX && forall i :: 0 <= i < |es| ==> TimestampsBelow(es[i])
    ensures StreakExact(Run(Init(orders), es))
  {
    hide Inv, Apply, StreakExact;
    if es == [] {
      StreakInitial(orders);
    } else {
      StreakRun(orders, es[..|es| - 1]);
      InvRun(orders, es[..|es| - 1]);
      StreakStep(Run(Init(orders), es[..|es| - 1]), es[|es| - 1]);
    }
  }

  lemma StreakInitial(orders: nat)
    requires 0 < orders <= U32_MAX
    ensures StreakExact(Init(orders))
  {
  }

  /** Anti-monopoly, after any run: when a wake makes an eleventh delivery in a row to one
      order, that order was the only eligible one the wake could serve. */
  lemma NoMonopoly(orders: nat, es: seq<Event>, freed: nat, k: nat)
    requires 0 < orders <= U32_MAX && forall i :: 0 <= i < |es| ==> TimestampsBelow(es[i])
    requires var s := Run(Init(orders), es); |s.log| <= k < |Apply(s, Wake(freed)).log|
    requires RunLength(Apply(Run(Init(orders), es), Wake(freed)).log[..k + 1]) > MAX_CONSECUTIVE
    ensures var s := Run(Init(orders), es);
            Collect(s, if freed < |s.slots| then freed + 1 else |s.slots|) == [Apply(s, Wake(freed)).log[k]]
  {
    hide Inv, StreakExact, AddsTo, Apply, Candidates, Collect, RunLength;
    var s := Run(Init(orders), es);
    InvRun(orders, es);
    StreakRun(orders, es);
    WakeAdds(s, freed);
    MonopolyAlone(s, freed, Apply(s, Wake(freed)).log, k);
  }

  lemma WakeAdds(s: State, freed: nat)
    requires Inv(s) && StreakExact(s)
    ensures AddsTo(s.log, Apply(s, Wake(freed)).log, Candidates(s, freed))
  {
    RankedDistinct(s, freed);
    WakeStreak(s, Candidates(s, freed), 0, freed);
  }

  lemma MonopolyAlone(s: State, freed: nat, log: seq<nat>, k: nat)
    requires |s.slots| > 0 && StreakExact(s) && AddsTo(s.log, log, Candidates(s, freed))
    requires |s.log| <= k < |log| && RunLength(log[..k + 1]) > MAX_CONSECUTIVE
    ensures Collect(s, if freed < |s.slots| then freed + 1 else |s.slots|) == [log[k]]
  {
    hide Collect, Candidates, RunLength, StreakExact, StreakCount, LastWinner;
    MonopolyStart(s.log, log, Candidates(s, freed), k);
    StreakDecodes(s);
    CandidatesExact(s, freed);
    var all := Collect(s, if freed < |s.slots| then freed + 1 else |s.slots|);
    assert log[k] in all;
  }

  /** A run of more than ten deliveries that ends inside a wake began before it. */
  lemma MonopolyStart(before: seq<nat>, log: seq<nat>, orders: seq<nat>, k: nat)
    requires AddsTo(before, log, orders) && |before| <= k < |log| && RunLength(log[..k + 1]) > MAX_CONSECUTIVE
    ensures log[k] in orders
    ensures before != [] && before[|before| - 1] == log[k] && RunLength(before) >= MAX_CONSECUTIVE
  {
    hide RunLength;
    RunLengthSnoc(log[..k], log[k]);
    assert log[..k + 1] == log[..k] + [log[k]];
    assert k > 0 && log[k - 1] == log[k];
    assert k == |before| && log[..k] == before;
  }

  // ----- bounded delivery past tombstones

  /** `id` is live at position `i` of the queue of order `o`. */
  ghost predicate QueuedAt(s: State, o: nat, id: nat, i: nat)
  {
    o < |s.slots| && i < |s.slots[o].queue| && s.slots[o].queue[i] == id && IsLive(s.entries, id)
  }

  /** Live entries ahead of position `i` weigh eight, tombstones one. */
  ghost function Weight(entries: map<nat, Entry>, queue: seq<nat>, i: nat): (w: nat)
    requires i <= |queue|
    ensures i <= w <= 8 * i
  {
    if i == 0 then 0 else Weight(entries, queue, i - 1) + (if IsLive(entries, queue[i - 1]) then 8 else 1)
  }

  /** The weight counts `8L + T` for `L` live entries and `T` tombstones ahead. */
  lemma {:induction false} WeightCounts(entries: map<nat, Entry>, queue: seq<nat>, i: nat)
    requires i <= |queue| && Distinct(queue)
    ensures |LiveIn(entries, queue[..i])| <= i
    ensures Weight(entries, queue, i) == 8 * |LiveIn(entries, queue[..i])| + (i - |LiveIn(entries, queue[..i])|)
  {
    if i == 0 {
      assert LiveIn(entries, queue[..i]) == {};
    } else {
      WeightCounts(entries, queue, i - 1);
      assert queue[..i] == queue[..i - 1] + [queue[i - 1]];
      if IsLive(entries, queue[i - 1]) {
        LiveSnoc(entries, queue[..i - 1], queue[i - 1]);
      } else {
        assert LiveIn(entries, queue[..i]) == LiveIn(entries, queue[..i - 1]);
      }
    }
  }

  /** Popping `k` tombstones from the front lowers the weight by `k`. */
  lemma {:induction false} WeightPopped(entries: map<nat, Entry>, queue: seq<nat>, k: nat, i: nat)
    requires k <= i <= |queue| && forall j :: 0 <= j < k ==> !IsLive(entries, queue[j])
    ensures Weight(entries, queue[k..], i - k) == Weight(entries, queue, i) - k
  {
    if i > k {
      WeightPopped(entries, queue, k, i - 1);
      assert queue[k..][i - k - 1] == queue[i - 1];
    } else if k > 0 {
      WeightPopped(entries, queue, k - 1, i - 1);
    }
  }

  /** Popping a live entry from the front lowers the weight by eight. */
  lemma {:induction false} WeightDelivered(entries: map<nat, Entry>, queue: seq<nat>, i: nat)
    requires 0 < i <= |queue| && IsLive(entries, queue[0])
    ensures Weight(entries, queue[1..], i - 1) == Weight(entries, queue, i) - 8
  {
    if i > 1 {
      WeightDelivered(entries, queue, i - 1);
      assert queue[1..][i - 2] == queue[i - 1];
    }
  }

  /** The weight never grows when entries leave LIVE. */
  lemma {:induction false} WeightMonotone(entries: map<nat, Entry>, entries': map<nat, Entry>, queue: seq<nat>, i: nat)
    requires i <= |queue| && forall id :: IsLive(entries', id) ==> IsLive(entries, id) || id !in queue
    ensures Weight(entries', queue, i) <= Weight(entries, queue, i)
  {
    if i > 0 { WeightMonotone(entries, entries', queue, i - 1); }
  }

  lemma {:induction false} WeightPrefix(entries: map<nat, Entry>, queue: seq<nat>, queue': seq<nat>, i: nat)
    requires i <= |queue| && i <= |queue'| && forall j :: 0 <= j < i ==> queue[j] == queue'[j]
    ensures Weight(entries, queue', i) == Weight(entries, queue, i)
  {
    if i > 0 { WeightPrefix(entries, queue, queue', i - 1); }
  }

  /** `id` has been delivered, or is still live in its queue with weight at most `w`. */
  ghost predicate Advanced(s: State, o: nat, id: nat, w: int)
  {
    || (id in s.entries && s.entries[id].state == WOKEN)
    || (exists i :: QueuedAt(s, o, id, i) && Weight(s.entries, s.slots[o].queue, i) <= w)
  }

  /** A drain reaches the live entry at `i`, or leaves it nearer: by eight or more if it had
      the whole budget. */
  lemma DrainWeight(entries: map<nat, Entry>, q: seq<nat>, i: nat, budget: nat)
    requires i < |q| && IsLive(entries, q[i]) && Distinct(q)
    ensures var d := Drain(entries, q, budget);
            d.found == Some(q[i]) ||
            (&& d.pops <= i && d.rest[i - d.pops] == q[i]
             && Weight(entries, d.rest, i - d.pops) <= Weight(entries, q, i)
             && (budget == MAX_POPS_PER_WAKE ==> Weight(entries, d.rest, i - d.pops) <= Weight(entries, q, i) - 8))
  {
    hide Drain;
    var d := Drain(entries, q, budget);
    if d.found.None? {
      assert d.pops <= i;
      WeightPopped(entries, q, d.pops, i);
    } else if d.found.value != q[i] {
      var k := d.pops - 1;
      assert k < i;
      WeightPopped(entries, q, k, i);
      assert q[k..][1..] == d.rest;
      WeightDelivered(entries, q[k..], i - k);
    }
  }

  lemma QueueDistinct(s: State, o: nat)
    requires Inv(s) && o < |s.slots|
    ensures Distinct(s.slots[o].queue)
  {
    assert SlotOk(s, o);
  }

  lemma InvNonempty(s: State)
    requires Inv(s)
    ensures |s.slots| > 0
  {
  }

  /** What one order's drain does to an entry of that order: delivered, or nearer by eight
      if the whole budget was there and by something otherwise. */
  lemma DrainAdvances(s: State, o: nat, id: nat, i: nat, pops: nat, freed: nat, w: int)
    requires Inv(s) && QueuedAt(s, o, id, i) && pops <= MAX_POPS_PER_WAKE
    requires Weight(s.entries, s.slots[o].queue, i) <= w
    ensures Advanced(WakeOrder(s, o, pops, freed).0, o, id, if pops == 0 then w - 8 else w)
  {
    hide Inv, WakeOrder, Drain, Weight, UpdatedStreak;
    var q := s.slots[o].queue;
    var d := Drain(s.entries, q, MAX_POPS_PER_WAKE - pops);
    var s' := WakeOrder(s, o, pops, freed).0;
    QueueDistinct(s, o);
    WakeOrderKeeps(s, o, pops, freed);
    DrainWeight(s.entries, q, i, MAX_POPS_PER_WAKE - pops);
    if d.found == Some(id) {
      assert s'.entries[id].state == WOKEN;
    } else {
      var k := i - d.pops;
      WeightMonotone(s.entries, s'.entries, d.rest, k);
      StillQueued(s, s', o, id, i, d, freed);
      assert Weight(s'.entries, s'.slots[o].queue, k) <= if pops == 0 then w - 8 else w;
    }
  }

  lemma StillQueued(s: State, s': State, o: nat, id: nat, i: nat, d: Drained, freed: nat)
    requires QueuedAt(s, o, id, i) && Woke(s, s', o, d, freed) && d.found != Some(id)
    requires d.pops <= i && i - d.pops < |d.rest| && d.rest[i - d.pops] == id
    ensures QueuedAt(s', o, id, i - d.pops)
  {
    hide UpdatedStreak;
  }

  /** Draining another order leaves this queue and its entries alone. */
  lemma OtherOrderAdvances(s: State, o: nat, id: nat, w: int, p: nat, pops: nat, freed: nat)
    requires Inv(s) && Advanced(s, o, id, w) && p < |s.slots| && p != o && pops <= MAX_POPS_PER_WAKE
    ensures Advanced(WakeOrder(s, p, pops, freed).0, o, id, w)
  {
    hide HeadOf, UpdatedStreak;
    var s' := WakeOrder(s, p, pops, freed).0;
    WakeOrderKeeps(s, p, pops, freed);
    var d := Drain(s.entries, s.slots[p].queue, MAX_POPS_PER_WAKE - pops);
    if s.entries.Keys == s'.entries.Keys && !(id in s.entries && s.entries[id].state == WOKEN) {
      var i :| QueuedAt(s, o, id, i) && Weight(s.entries, s.slots[o].queue, i) <= w;
      if d.found == Some(id) {
      } else {
        WeightMonotone(s.entries, s'.entries, s.slots[o].queue, i);
        assert QueuedAt(s', o, id, i);
      }
    }
  }

  lemma {:induction false} WakeAdvances(s: State, orders: seq<nat>, pops: nat, freed: nat, o: nat, id: nat, w: int)
    requires Inv(s) && pops <= MAX_POPS_PER_WAKE && forall i :: 0 <= i < |orders| ==> orders[i] < |s.slots|
    requires Advanced(s, o, id, w) && o < |s.slots|
    ensures Advanced(WakeOrders(s, orders, pops, freed), o, id, w)
    decreases |orders|
  {
    hide Inv, Woke, WakeOrder, Drain, Advanced;
    if orders != [] && pops < MAX_POPS_PER_WAKE {
      var (s', pops') := WakeOrder(s, orders[0], pops, freed);
      WakeOrderKeeps(s, orders[0], pops, freed);
      if orders[0] == o {
        SameOrderAdvances(s, o, id, w, pops, freed);
        AdvancedWeaken(s', o, id, if pops == 0 then w - 8 else w, w);
      } else {
        OtherOrderAdvances(s, o, id, w, orders[0], pops, freed);
      }
      WakeAdvances(s', orders[1..], pops', freed, o, id, w);
    }
  }

  lemma SameOrderAdvances(s: State, o: nat, id: nat, w: int, pops: nat, freed: nat)
    requires Inv(s) && pops <= MAX_POPS_PER_WAKE && o < |s.slots| && Advanced(s, o, id, w)
    ensures Advanced(WakeOrder(s, o, pops, freed).0, o, id, if pops == 0 then w - 8 else w)
  {
    hide Inv, WakeOrder, Drain, Weight, UpdatedStreak;
    if id in s.entries && s.entries[id].state == WOKEN {
      WakeOrderKeeps(s, o, pops, freed);
    } else {
      var i :| QueuedAt(s, o, id, i) && Weight(s.entries, s.slots[o].queue, i) <= w;
      DrainAdvances(s, o, id, i, pops, freed, w);
    }
  }

  lemma AdvancedWeaken(s: State, o: nat, id: nat, w: int, w': int)
    requires Advanced(s, o, id, w) && w <= w'
    ensures Advanced(s, o, id, w')
  {
    hide Weight;
  }

  /** A wake whose best candidate is order `o` brings its entries nearer by eight. */
  lemma BestCandidateAdvances(s: State, freed: nat, o: nat, id: nat, w: int)
    requires Inv(s) && Advanced(s, o, id, w) && o < |s.slots| && |s.slots| > 0
    requires Candidates(s, freed) != [] && Candidates(s, freed)[0] == o
    ensures Advanced(Apply(s, Wake(freed)), o, id, w - 8)
  {
    hide Inv, Woke, WakeOrder, Drain, Weight, UpdatedStreak, Candidates, Advanced;
    var r := Candidates(s, freed);
    CandidatesInRange(s, freed);
    var (s', pops) := WakeOrder(s, o, 0, freed);
    WakeOrderKeeps(s, o, 0, freed);
    SameOrderAdvances(s, o, id, w, 0, freed);
    WakeAdvances(s', r[1..], pops, freed, o, id, w - 8);
  }

  /** Nobody gives up on `id`. */
  ghost predicate Spares(e: Event, id: nat)
  {
    !(e.Revoke? && e.id == id) && !(e.Drop? && e.id == id) && TimestampsBelow(e)
  }

  /** No operation moves `id` back. */
  lemma StepAdvances(s: State, e: Event, o: nat, id: nat, w: int)
    requires Inv(s) && Advanced(s, o, id, w) && o < |s.slots| && Spares(e, id)
    ensures Advanced(Apply(s, e), o, id, w)
  {
    if e.Wake? {
      CandidatesInRange(s, e.freed);
      WakeAdvances(s, Candidates(s, e.freed), 0, e.freed, o, id, w);
    } else {
      QuietAdvances(s, e, o, id, w);
    }
  }

  lemma QuietAdvances(s: State, e: Event, o: nat, id: nat, w: int)
    requires Inv(s) && Advanced(s, o, id, w) && o < |s.slots| && Spares(e, id) && !e.Wake?
    ensures Advanced(Apply(s, e), o, id, w)
  {
    var s' := Apply(s, e);
    if id in s.entries { assert EntryOk(s, id); }
    if !(id in s.entries && s.entries[id].state == WOKEN) {
      var i :| QueuedAt(s, o, id, i) && Weight(s.entries, s.slots[o].queue, i) <= w;
      assert SlotOk(s, o);
      QuietQueue(s, e, o);
      WeightMonotone(s.entries, s'.entries, s.slots[o].queue, i);
      WeightPrefix(s'.entries, s.slots[o].queue, s'.slots[o].queue, i);
      assert QueuedAt(s', o, id, i);
    }
  }

  /** Operations other than a wake only append to queues and only revoke entries. */
  lemma QuietQueue(s: State, e: Event, o: nat)
    requires Inv(s) && o < |s.slots| && !e.Wake?
    ensures var s' := Apply(s, e);
            && |s.slots[o].queue| <= |s'.slots[o].queue| && s'.slots[o].queue[..|s.slots[o].queue|] == s.slots[o].queue
            && (forall x :: IsLive(s'.entries, x) ==> IsLive(s.entries, x) || x !in s.slots[o].queue)
            && (forall x :: IsLive(s.entries, x) && !(e.Revoke? && e.id == x) && !(e.Drop? && e.id == x) ==>
                  IsLive(s'.entries, x))
  {
    assert SlotOk(s, o);
    if e.Register? {
      forall x | x in s.slots[o].queue ensures x != s.next { assert EntryOk(s, x); }
    }
  }

  ghost predicate BestFor(s: State, e: Event, o: nat)
    requires |s.slots| > 0
  {
    e.Wake? && Candidates(s, e.freed) != [] && Candidates(s, e.freed)[0] == o
  }

  /** How many wakes of the run had order `o` as their best candidate. */
  ghost function BestWakes(s: State, es: seq<Event>, o: nat): nat
    requires |s.slots| > 0
  {
    if es == [] then 0 else
      BestWakes(s, es[..|es| - 1], o) + (if BestFor(Run(s, es[..|es| - 1]), es[|es| - 1], o) then 1 else 0)
  }

  lemma {:induction false} RunAdvances(s: State, es: seq<Event>, o: nat, id: nat, w: int)
    requires Inv(s) && Advanced(s, o, id, w) && o < |s.slots| && forall i :: 0 <= i < |es| ==> Spares(es[i], id)
    ensures Inv(Run(s, es)) && Advanced(Run(s, es), o, id, w - 8 * BestWakes(s, es, o))
  {
    hide Inv, Advanced, Apply, Candidates;
    if es != [] {
      var init, e := es[..|es| - 1], es[|es| - 1];
      RunAdvances(s, init, o, id, w);
      var mid, left := Run(s, init), w - 8 * BestWakes(s, init, o);
      InvStep(mid, e);
      if BestFor(mid, e, o) {
        BestCandidateAdvances(mid, e.freed, o, id, left);
      } else {
        StepAdvances(mid, e, o, id, left);
      }
    }
  }

  lemma AdvancedBelowZero(s: State, o: nat, id: nat, w: int)
    requires Advanced(s, o, id, w) && w < 0
    ensures id in s.entries && s.entries[id].state == WOKEN
  {
  }

  /** With `L` live entries and `T` tombstones ahead of it, an entry that nobody revokes is
      delivered by the time `L + T / 8 + 1` wakes had its order as best candidate, whatever
      else happens in between. */
  lemma DeliveredWithin(s: State, es: seq<Event>, o: nat, id: nat, i: nat)
    requires Inv(s) && QueuedAt(s, o, id, i) && forall k :: 0 <= k < |es| ==> Spares(es[k], id)
    requires var live := |LiveIn(s.entries, s.slots[o].queue[..i])|;
             BestWakes(s, es, o) >= live + (i - live) / 8 + 1
    ensures var s' := Run(s, es); id in s'.entries && s'.entries[id].state == WOKEN
  {
    hide Inv, Weight, BestWakes, Run;
    var q := s.slots[o].queue;
    QueueDistinct(s, o);
    WeightCounts(s.entries, q, i);
    var w := Weight(s.entries, q, i);
    RunAdvances(s, es, o, id, w);
    AdvancedBelowZero(Run(s, es), o, id, w - 8 * BestWakes(s, es, o));
  }

  /** With waiters at one order only, that order is the best candidate of every wake that
      can serve it. */
  lemma SoleOrderIsBest(s: State, o: nat, id: nat, i: nat, freed: nat)
    requires Inv(s) && QueuedAt(s, o, id, i) && o <= freed
    requires forall p: nat :: p < |s.slots| && p != o ==> s.slots[p].count == 0
    ensures Candidates(s, freed) == [o]
  {
    QueuedIsEligible(s, o, id);
    CandidatesExact(s, freed);
    RankedDistinct(s, freed);
    var r := Candidates(s, freed);
    var all := Collect(s, if freed < |s.slots| then freed + 1 else |s.slots|);
    OnlyElement(all, o);
    OnlyElement(r, o);
  }

  /** All waiters are at order `o`. */
  ghost predicate SoleOrder(s: State, o: nat)
  {
    forall p: nat :: p < |s.slots| && p != o ==> s.slots[p].count == 0
  }

  /** At every point of a run, all waiters are at order `o`. */
  ghost predicate SoleThroughout(s: State, es: seq<Event>, o: nat)
    requires |s.slots| > 0
  {
    forall k :: 0 <= k <= |es| ==> SoleOrder(Run(s, es[..k]), o)
  }

  /** The wakes of a run that can serve order `o`. */
  function ServingWakes(es: seq<Event>, o: nat): nat
  {
    if es == [] then 0 else
      var e := es[|es| - 1];
      ServingWakes(es[..|es| - 1], o) + if e.Wake? && o <= e.freed then 1 else 0
  }

  /** With waiters at one order only, an entry with `L` live entries and `T` tombstones ahead
      that nobody revokes is woken within `L + T / 8 + 1` wakes that can serve its order. */
  lemma DeliveredAtSoleOrder(s: State, es: seq<Event>, o: nat, id: nat, i: nat)
    requires Inv(s) && QueuedAt(s, o, id, i) && forall k :: 0 <= k < |es| ==> Spares(es[k], id)
    requires SoleThroughout(s, es, o)
    requires var live := |LiveIn(s.entries, s.slots[o].queue[..i])|;
             ServingWakes(es, o) >= live + (i - live) / 8 + 1
    ensures var s' := Run(s, es); id in s'.entries && s'.entries[id].state == WOKEN
  {
    hide Inv, ServingWakes, Run, SoleThroughout, Advanced, LiveIn;
    var w := StartsAdvanced(s, o, id, i);
    SoleRunAdvances(s, es, o, id, w);
    EnoughWakes(|LiveIn(s.entries, s.slots[o].queue[..i])|, i, ServingWakes(es, o));
    AdvancedBelowZero(Run(s, es), o, id, w - 8 * ServingWakes(es, o));
  }

  lemma StartsAdvanced(s: State, o: nat, id: nat, i: nat) returns (w: nat)
    requires Inv(s) && QueuedAt(s, o, id, i)
    ensures Advanced(s, o, id, w)
    ensures var live := |LiveIn(s.entries, s.slots[o].queue[..i])|; live <= i && w == 8 * live + (i - live)
  {
    QueueDistinct(s, o);
    WeightCounts(s.entries, s.slots[o].queue, i);
    w := Weight(s.entries, s.slots[o].queue, i);
  }

  lemma EnoughWakes(live: nat, i: nat, n: nat)
    requires live <= i && n >= live + (i - live) / 8 + 1
    ensures 8 * live + (i - live) - 8 * n < 0
  {
  }

  lemma {:induction false} SoleRunAdvances(s: State, es: seq<Event>, o: nat, id: nat, w: int)
    requires Inv(s) && Advanced(s, o, id, w) && o < |s.slots| && forall i :: 0 <= i < |es| ==> Spares(es[i], id)
    requires SoleThroughout(s, es, o)
    ensures Inv(Run(s, es)) && Advanced(Run(s, es), o, id, w - 8 * ServingWakes(es, o))
  {
    hide Inv, Advanced, Apply, Candidates, SoleOrder;
    if es != [] {
      var init, e := es[..|es| - 1], es[|es| - 1];
      forall k | 0 <= k <= |init| ensures SoleOrder(Run(s, init[..k]), o) { assert init[..k] == es[..k]; }
      SoleRunAdvances(s, init, o, id, w);
      var mid, left := Run(s, init), w - 8 * ServingWakes(init, o);
      InvStep(mid, e);
      StepAdvances(mid, e, o, id, left);
      if e.Wake? && o <= e.freed {
        assert es[..|init|] == init;
        SoleWakeAdvances(mid, e.freed, o, id, left);
      }
    }
  }

  lemma SoleWakeAdvances(s: State, freed: nat, o: nat, id: nat, w: int)
    requires Inv(s) && Advanced(s, o, id, w) && o < |s.slots| && SoleOrder(s, o) && o <= freed
    ensures Advanced(Apply(s, Wake(freed)), o, id, w - 8)
  {
    hide Inv, Apply, Candidates, Weight;
    if id in s.entries && s.entries[id].state == WOKEN {
      StepAdvances(s, Wake(freed), o, id, -1);
      AdvancedBelowZero(Apply(s, Wake(freed)), o, id, -1);
    } else {
      var i :| QueuedAt(s, o, id, i) && Weight(s.entries, s.slots[o].queue, i) <= w;
      SoleOrderIsBest(s, o, id, i, freed);
      BestCandidateAdvances(s, freed, o, id, w);
    }
  }

  lemma OnlyElement(r: seq<nat>, o: nat)
    requires (forall x :: x in r ==> x == o) && Distinct(r)
    ensures |r| <= 1 && (o in r ==> r == [o])
  {
    if |r| > 1 {
      FirstTwo(r);
      assert false;
    }
  }

  lemma FirstTwo(r: seq<nat>)
    requires |r| > 1
    ensures r[0] in r && r[1] in r
  {
  }
}
