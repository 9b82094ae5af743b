/** The waiter protocol (src/async_alloc.rs) run one operation at a time, atomic step by atomic
    step: each operation then does exactly what the whole operation of module `Waiters` does.
 */
module WaiterSolo {
  import opened Bitmaps
  import W = Waiters
  import R = WaiterRanking
  import opened WaiterInterleaving

  // ----- the two states

  predicate SlotMatch(a: Slot, b: W.Slot) { a.queue == b.queue && a.count == b.count && a.head == b.headTimestamp }

  predicate EntryMatch(a: Entry, b: W.Entry) { a.state == b.state && a.tx == b.hasTx && a.timestamp == b.timestamp }

  predicate RegMatch(a: Reg, order: nat, b: W.Registration)
  {
    a.registered == b.registered && a.pending == b.pending && order == b.order
  }

  /** Both states have the same queues, counts, heads, entries and registrations. */
  ghost predicate Matches(s: State, w: W.State)
  {
    && |s.slots| == |w.slots| && (forall o: nat :: o < |s.slots| ==> SlotMatch(s.slots[o], w.slots[o]))
    && s.entries.Keys == w.entries.Keys && (forall id :: id in s.entries ==> EntryMatch(s.entries[id], w.entries[id]))
    && s.regs.Keys == w.regs.Keys
    && forall id :: id in s.regs ==>
         id in s.entries && RegMatch(s.regs[id], s.entries[id].order, w.regs[id])
  }

  /** No queue is locked, except by `t` that of order `o` if `held`. */
  ghost predicate LockedOnly(s: State, t: nat, o: nat, held: bool)
  {
    forall p: nat :: p < |s.slots| ==> s.slots[p].lock == if held && p == o then Some(t) else None
  }

  ghost predicate OthersSame(a: State, b: State, t: nat)
  {
    forall u: nat :: u != t ==> b.At(u) == a.At(u)
  }

  // ----- steps of one thread

  ghost function Solo(s: State, t: nat, n: nat): State
    decreases n
  {
    if n == 0 then s else Solo(Apply(s, Step(t)), t, n - 1)
  }

  lemma {:induction false} SoloJoin(s: State, t: nat, m: nat, n: nat)
    ensures Solo(Solo(s, t, m), t, n) == Solo(s, t, m + n)
    decreases m
  {
    hide Apply;
    if m > 0 { SoloJoin(Apply(s, Step(t)), t, m - 1, n); }
  }

  /** One more step, from a state the thread reaches alone. */
  lemma OneStep(s: State, t: nat, n: nat, cur: State) returns (next: State)
    requires cur == Solo(s, t, n) && Inv(cur)
    ensures next == Solo(s, t, n + 1) && next == Apply(cur, Step(t)) && Inv(next)
    ensures Meaningful(cur, cur.At(t)) && next == After(cur, t)
    ensures OthersSame(cur, next, t)
  {
    hide Inv, Enact, EffectOf;
    At(cur, t);
    InvStep(cur, Step(t));
    next := Apply(cur, Step(t));
    assert Solo(next, t, 0) == next;
    assert Solo(cur, t, 1) == next;
    SoloJoin(s, t, n, 1);
    EnactOthers(cur, t, EffectOf(cur, t, cur.At(t)));
  }

  lemma EnactOthers(s: State, t: nat, f: Effect)
    ensures OthersSame(s, Enact(s, t, f), t)
  {
  }

  // ----- what each step leaves

  /** The state after one step of thread `t`. */
  function After(s: State, t: nat): State
    requires Meaningful(s, s.At(t))
  {
    Enact(s, t, EffectOf(s, t, s.At(t)))
  }

  /** Thread `t` goes to `pc` and leaves these queues, entries and registrations. */
  ghost predicate Becomes(
    s: State, z: State, t: nat, pc: Pc, slots: seq<Slot>, entries: map<nat, Entry>, regs: map<nat, Reg>)
  {
    z.At(t) == pc && z.slots == slots && z.entries == entries && z.regs == regs && OthersSame(s, z, t)
  }

  function AfterUnlock(plan: Plan, won: Option<nat>): Pc
  {
    if won.Some? then WakeTake(plan, won.value) else NextOrder(plan.rest, plan.pops)
  }

  function LeftRegs(regs: map<nat, Reg>, id: nat, dropping: bool): map<nat, Reg>
    requires id in regs
  {
    if dropping then regs - {id} else regs[id := regs[id].(registered := false, busy := None)]
  }

  lemma LockIs(s: State, t: nat, plan: Plan)
    requires Meaningful(s, s.At(t)) && s.At(t) == WakeLock(plan) && s.slots[plan.o].lock.None?
    ensures Becomes(s, After(s, t), t, WakePop(plan),
            s.slots[plan.o := s.slots[plan.o].(lock := Some(t))], s.entries, s.regs)
  {
  }

  lemma PopIs(s: State, t: nat, plan: Plan, id: nat)
    requires Meaningful(s, s.At(t)) && s.At(t) == WakePop(plan)
    requires plan.pops < W.MAX_POPS_PER_WAKE && s.slots[plan.o].queue != []
    requires s.slots[plan.o].queue[0] == id && id in s.entries
    ensures Becomes(s, After(s, t), t, WakeLoad(plan.(pops := plan.pops + 1), id),
            s.slots[plan.o := s.slots[plan.o].(queue := s.slots[plan.o].queue[1..])],
            s.entries[id := s.entries[id].(place := Popped(t))],
            s.regs)
  {
  }

  lemma StopIs(s: State, t: nat, plan: Plan)
    requires Meaningful(s, s.At(t)) && s.At(t) == WakePop(plan)
    requires plan.pops >= W.MAX_POPS_PER_WAKE || s.slots[plan.o].queue == []
    ensures Becomes(s, After(s, t), t, WakeUnlock(plan, None),
            s.slots, s.entries, s.regs)
  {
  }

  lemma SkipIs(s: State, t: nat, plan: Plan, id: nat)
    requires Meaningful(s, s.At(t)) && s.At(t) == WakeLoad(plan, id) && !LiveEntry(s, id)
    ensures Becomes(s, After(s, t), t, WakePop(plan),
            s.slots, s.entries[id := s.entries[id].(place := Gone)], s.regs)
  {
  }

  lemma LoadIs(s: State, t: nat, plan: Plan, id: nat)
    requires Meaningful(s, s.At(t)) && s.At(t) == WakeLoad(plan, id) && LiveEntry(s, id)
    ensures Becomes(s, After(s, t), t, WakeCas(plan, id),
            s.slots, s.entries, s.regs)
  {
  }

  lemma CasIs(s: State, t: nat, plan: Plan, id: nat)
    requires Meaningful(s, s.At(t)) && s.At(t) == WakeCas(plan, id) && LiveEntry(s, id)
    ensures Becomes(s, After(s, t), t, WakeSub(plan, id),
            s.slots,
            s.entries[id := s.entries[id].(state := W.WOKEN, place := Gone, sub := Due(t), claim := ClaimedBy(t))],
            s.regs)
  {
  }

  lemma SubIs(s: State, t: nat, plan: Plan, id: nat)
    requires Meaningful(s, s.At(t)) && s.At(t) == WakeSub(plan, id)
    ensures Becomes(s, After(s, t), t, WakeScan(plan, id, 0),
            s.slots[plan.o := s.slots[plan.o].(count := s.slots[plan.o].count - 1)],
            s.entries[id := s.entries[id].(sub := Settled)],
            s.regs)
  {
  }

  lemma StoreIs(s: State, t: nat, plan: Plan, id: nat, ts: nat)
    requires Meaningful(s, s.At(t)) && s.At(t) == WakeStore(plan, id, ts)
    ensures Becomes(s, After(s, t), t, WakeUnlock(plan, Some(id)),
            s.slots[plan.o := s.slots[plan.o].(head := ts)], s.entries, s.regs)
  {
  }

  lemma UnlockIs(s: State, t: nat, plan: Plan, won: Option<nat>)
    requires Meaningful(s, s.At(t)) && s.At(t) == WakeUnlock(plan, won)
    ensures Becomes(s, After(s, t), t, AfterUnlock(plan, won),
            s.slots[plan.o := s.slots[plan.o].(lock := None)], s.entries, s.regs)
  {
  }

  lemma TakeIs(s: State, t: nat, plan: Plan, id: nat)
    requires Meaningful(s, s.At(t)) && s.At(t) == WakeTake(plan, id)
    ensures Becomes(s, After(s, t), t, NextOrder(plan.rest, plan.pops),
            s.slots, s.entries[id := s.entries[id].(tx := false, claim := TakenOnce)], s.regs)
  {
  }

  lemma PrepLockIs(s: State, t: nat, id: nat, o: nat)
    requires Meaningful(s, s.At(t)) && s.At(t) == PrepLock(id) && s.entries[id].order == o && s.slots[o].lock.None?
    ensures Becomes(s, After(s, t), t, PrepPush(id),
            s.slots[o := s.slots[o].(lock := Some(t))], s.entries, s.regs)
  {
  }

  lemma PushIs(s: State, t: nat, id: nat, o: nat)
    requires Meaningful(s, s.At(t)) && s.At(t) == PrepPush(id) && s.entries[id].order == o
    ensures Becomes(s, After(s, t), t, PrepAdd(id),
            s.slots[o := s.slots[o].(queue := s.slots[o].queue + [id])],
            s.entries[id := s.entries[id].(place := Pushed(t))],
            s.regs)
  {
  }

  lemma AddIs(s: State, t: nat, id: nat, o: nat)
    requires Meaningful(s, s.At(t)) && s.At(t) == PrepAdd(id) && s.entries[id].order == o
    ensures Becomes(s, After(s, t), t, if s.slots[o].count == 0 then PrepHead(id) else PrepUnlock(id),
            s.slots[o := s.slots[o].(count := s.slots[o].count + 1)],
            s.entries[id := s.entries[id].(place := Queued)],
            s.regs)
  {
  }

  lemma HeadIs(s: State, t: nat, id: nat, o: nat)
    requires Meaningful(s, s.At(t)) && s.At(t) == PrepHead(id) && s.entries[id].order == o
    ensures Becomes(s, After(s, t), t, PrepUnlock(id),
            s.slots[o := s.slots[o].(head := s.entries[id].timestamp)], s.entries, s.regs)
  {
  }

  lemma PrepUnlockIs(s: State, t: nat, id: nat, o: nat)
    requires Meaningful(s, s.At(t)) && s.At(t) == PrepUnlock(id) && s.entries[id].order == o
    ensures Becomes(s, After(s, t), t, Idle,
            s.slots[o := s.slots[o].(lock := None)],
            s.entries,
            s.regs[id := s.regs[id].(registered := true, busy := None)])
  {
  }

  lemma RevCasIs(s: State, t: nat, id: nat, dropping: bool)
    requires Meaningful(s, s.At(t)) && s.At(t) == RevCas(id, dropping) && LiveEntry(s, id)
    ensures Becomes(s, After(s, t), t, RevTake(id, dropping),
            s.slots,
            s.entries[id := s.entries[id].(state := W.REVOKED, sub := Due(t), claim := ClaimedBy(t))],
            s.regs)
  {
  }

  lemma RevMissIs(s: State, t: nat, id: nat, dropping: bool)
    requires Meaningful(s, s.At(t)) && s.At(t) == RevCas(id, dropping) && !LiveEntry(s, id)
    ensures Becomes(s, After(s, t), t, RevEnd(id, dropping),
            s.slots, s.entries, s.regs)
  {
  }

  lemma RevTakeIs(s: State, t: nat, id: nat, dropping: bool)
    requires Meaningful(s, s.At(t)) && s.At(t) == RevTake(id, dropping)
    ensures Becomes(s, After(s, t), t, RevSub(id, dropping),
            s.slots, s.entries[id := s.entries[id].(tx := false, claim := TakenOnce)], s.regs)
  {
  }

  lemma RevSubIs(s: State, t: nat, id: nat, dropping: bool, o: nat)
    requires Meaningful(s, s.At(t)) && s.At(t) == RevSub(id, dropping) && s.entries[id].order == o
    ensures Becomes(s, After(s, t), t, RevEnd(id, dropping),
            s.slots[o := s.slots[o].(count := s.slots[o].count - 1)],
            s.entries[id := s.entries[id].(sub := Settled)],
            s.regs)
  {
  }

  lemma RevEndIs(s: State, t: nat, id: nat, dropping: bool)
    requires Meaningful(s, s.At(t)) && s.At(t) == RevEnd(id, dropping)
    ensures Becomes(s, After(s, t), t, Idle,
            s.slots, s.entries, LeftRegs(s.regs, id, dropping))
  {
  }

  // ----- the scan for the next head

  /** Liveness and times agree on a queue. */
  ghost predicate SameLive(s: State, entries: map<nat, W.Entry>, q: seq<nat>)
  {
    forall x :: x in q ==>
      && (LiveEntry(s, x) <==> W.IsLive(entries, x))
      && (LiveEntry(s, x) ==> s.entries[x].timestamp == entries[x].timestamp)
  }

  lemma {:induction false} SoloScan(
    s: State, t: nat, n: nat, cur: State, plan: Plan, id: nat, i: nat, entries: map<nat, W.Entry>)
    returns (m: nat, next: State)
    requires cur == Solo(s, t, n) && Inv(cur) && cur.At(t) == WakeScan(plan, id, i) && plan.o < |cur.slots|
    requires i <= |cur.slots[plan.o].queue| && SameLive(cur, entries, cur.slots[plan.o].queue)
    requires forall j :: 0 <= j < i ==> !LiveEntry(cur, cur.slots[plan.o].queue[j])
    ensures next == Solo(s, t, m) && Inv(next)
    ensures next == cur.(threads := cur.threads[t := WakeStore(plan, id, W.HeadOf(entries, cur.slots[plan.o].queue))])
    decreases |cur.slots[plan.o].queue| - i
  {
    hide Inv, W.HeadOf, After, Meaningful, Apply, Solo, SameLive;
    var q := cur.slots[plan.o].queue;
    next := OneStep(s, t, n, cur);
    m := n + 1;
    HeadFrom(cur, entries, q, i);
    ScanIs(cur, t, plan, id, i);
    if i < |q| && !LiveEntry(cur, q[i]) {
      var mid := next;
      SameScan(cur, mid, entries, q);
      m, next := SoloScan(s, t, m, mid, plan, id, i + 1, entries);
    }
  }

  lemma SameScan(a: State, b: State, entries: map<nat, W.Entry>, q: seq<nat>)
    requires SameLive(a, entries, q) && b.entries == a.entries
    ensures SameLive(b, entries, q)
  {
  }

  lemma ScanIs(s: State, t: nat, plan: Plan, id: nat, i: nat)
    requires Meaningful(s, s.At(t)) && s.At(t) == WakeScan(plan, id, i)
    ensures var q := s.slots[plan.o].queue;
            After(s, t) == s.(threads := s.threads[t :=
              if i >= |q| then WakeStore(plan, id, W.NO_WAITERS_TIMESTAMP)
              else if LiveEntry(s, q[i]) then WakeStore(plan, id, s.entries[q[i]].timestamp)
              else WakeScan(plan, id, i + 1)])
  {
  }

  lemma HeadFrom(s: State, entries: map<nat, W.Entry>, q: seq<nat>, i: nat)
    requires i <= |q| && SameLive(s, entries, q) && forall j :: 0 <= j < i ==> !LiveEntry(s, q[j])
    ensures i < |q| && LiveEntry(s, q[i]) ==> W.HeadOf(entries, q) == s.entries[q[i]].timestamp
    ensures i == |q| ==> W.HeadOf(entries, q) == W.NO_WAITERS_TIMESTAMP
  {
    forall j | 0 <= j < i ensures !W.IsLive(entries, q[j]) { assert q[j] in q; }
    R.HeadOfFirst(entries, q, i);
    if i < |q| { assert q[i] in q; }
  }

  // ----- one order of a wake

  /** What is left of a wake once the pops of one order are over. */
  ghost predicate OrderDone(s: State, s': State, t: nat, plan: Plan, w: W.State, freed: nat)
  {
    && plan.o < |w.slots| && plan.pops <= W.MAX_POPS_PER_WAKE
    && var (w', pops) := W.WakeOrder(w, plan.o, plan.pops, freed);
       && Matches(s', w') && s'.At(t) == NextOrder(plan.rest, pops)
       && LockedOnly(s', t, plan.o, false) && OthersSame(s, s', t)
  }

  /** The budget is used up, or the queue is empty. */
  lemma SoloStops(s: State, t: nat, n: nat, cur: State, plan: Plan, w: W.State, freed: nat) returns (next: State)
    requires cur == Solo(s, t, n) && Inv(cur) && cur.At(t) == WakePop(plan) && LockedOnly(cur, t, plan.o, true)
    requires Matches(cur, w) && plan.o < |cur.slots| && plan.pops <= W.MAX_POPS_PER_WAKE
    requires plan.pops == W.MAX_POPS_PER_WAKE || cur.slots[plan.o].queue == []
    ensures next == Solo(s, t, n + 2) && Inv(next) && OrderDone(cur, next, t, plan, w, freed)
  {
    hide Inv, After, Meaningful, Apply, Solo, NextOrder, W.WakeOrder;
    var mid := OneStep(s, t, n, cur);
    StopIs(cur, t, plan);
    next := OneStep(s, t, n + 1, mid);
    UnlockIs(mid, t, plan, None);
    NothingPopped(cur, w, plan, freed);
    LockMatches(cur, next, w, plan.o);
  }

  lemma NothingPopped(cur: State, w: W.State, plan: Plan, freed: nat)
    requires Matches(cur, w) && plan.o < |cur.slots| && plan.pops <= W.MAX_POPS_PER_WAKE
    requires plan.pops == W.MAX_POPS_PER_WAKE || cur.slots[plan.o].queue == []
    ensures |w.slots| == |cur.slots| && W.WakeOrder(w, plan.o, plan.pops, freed) == (w, plan.pops)
  {
    assert SlotMatch(cur.slots[plan.o], w.slots[plan.o]);
    assert w.slots[plan.o := w.slots[plan.o].(queue := w.slots[plan.o].queue)] == w.slots;
  }

  /** A tombstone is popped. */
  lemma SoloSkips(s: State, t: nat, n: nat, cur: State, plan: Plan, w: W.State, freed: nat)
    returns (next: State, w1: W.State)
    requires cur == Solo(s, t, n) && Inv(cur) && cur.At(t) == WakePop(plan) && LockedOnly(cur, t, plan.o, true)
    requires Matches(cur, w) && plan.o < |cur.slots| && plan.pops < W.MAX_POPS_PER_WAKE
    requires cur.slots[plan.o].queue != [] && !LiveEntry(cur, cur.slots[plan.o].queue[0])
    ensures next == Solo(s, t, n + 2) && Inv(next) && next.At(t) == WakePop(plan.(pops := plan.pops + 1))
    ensures LockedOnly(next, t, plan.o, true) && Matches(next, w1) && OthersSame(cur, next, t)
    ensures |next.slots| == |cur.slots| && next.slots[plan.o].queue == cur.slots[plan.o].queue[1..]
    ensures |w1.slots| == |w.slots| && plan.o < |w.slots|
    ensures W.WakeOrder(w1, plan.o, plan.pops + 1, freed) == W.WakeOrder(w, plan.o, plan.pops, freed)
  {
    hide Inv, NextOrder, PcOk, Matches, W.WakeOrder, EffectOf, Enact, LockedOnly, OthersSame;
    var q := cur.slots[plan.o].queue;
    SameOrders(cur, w);
    next := PopsTombstone(s, t, n, cur, plan);
    w1 := w.(slots := w.slots[plan.o := w.slots[plan.o].(queue := q[1..])]);
    MatchesPopped(cur, next, w, w1, plan.o);
    StillLocked(cur, next, t, plan.o);
    SkipsOne(w, w1, plan.o, plan.pops, freed);
  }

  lemma SameOrders(s: State, w: W.State)
    requires Matches(s, w)
    ensures |s.slots| == |w.slots|
  {
  }

  lemma PopsTombstone(s: State, t: nat, n: nat, cur: State, plan: Plan) returns (next: State)
    requires cur == Solo(s, t, n) && Inv(cur) && cur.At(t) == WakePop(plan)
    requires plan.o < |cur.slots| && plan.pops < W.MAX_POPS_PER_WAKE
    requires cur.slots[plan.o].queue != [] && !LiveEntry(cur, cur.slots[plan.o].queue[0])
    ensures next == Solo(s, t, n + 2) && Inv(next) && next.At(t) == WakePop(plan.(pops := plan.pops + 1))
    ensures OthersSame(cur, next, t) && next.regs == cur.regs
    ensures next.slots == cur.slots[plan.o := cur.slots[plan.o].(queue := cur.slots[plan.o].queue[1..])]
    ensures var id := cur.slots[plan.o].queue[0];
            id in cur.entries && next.entries == cur.entries[id := cur.entries[id].(place := Gone)]
  {
    hide Inv, After, Meaningful, Apply, Solo, NextOrder;
    var id := cur.slots[plan.o].queue[0];
    QueueAt(cur, plan.o, 0);
    var mid := OneStep(s, t, n, cur);
    PopIs(cur, t, plan, id);
    next := OneStep(s, t, n + 1, mid);
    SkipIs(mid, t, plan.(pops := plan.pops + 1), id);
    assert next.entries == cur.entries[id := next.entries[id]];
  }

  lemma MatchesPopped(cur: State, next: State, w: W.State, w1: W.State, o: nat)
    requires Matches(cur, w) && o < |cur.slots| && cur.slots[o].queue != [] && next.regs == cur.regs
    requires next.slots == cur.slots[o := cur.slots[o].(queue := cur.slots[o].queue[1..])]
    requires var id := cur.slots[o].queue[0];
             id in cur.entries && next.entries == cur.entries[id := cur.entries[id].(place := Gone)]
    requires o < |w.slots| && w1 == w.(slots := w.slots[o := w.slots[o].(queue := cur.slots[o].queue[1..])])
    ensures Matches(next, w1) && w.slots[o].queue == cur.slots[o].queue
    ensures LiveEntry(cur, cur.slots[o].queue[0]) <==> W.IsLive(w.entries, cur.slots[o].queue[0])
  {
    var id := cur.slots[o].queue[0];
    assert EntryMatch(cur.entries[id], w.entries[id]) && SlotMatch(cur.slots[o], w.slots[o]);
    assert next.entries.Keys == cur.entries.Keys;
    forall x | x in next.regs ensures x in next.entries && RegMatch(next.regs[x], next.entries[x].order, w1.regs[x]) {
      assert RegMatch(cur.regs[x], cur.entries[x].order, w.regs[x]);
    }
  }

  lemma StillLocked(cur: State, next: State, t: nat, o: nat)
    requires LockedOnly(cur, t, o, true) && o < |cur.slots| == |next.slots|
    requires next.slots == cur.slots[o := cur.slots[o].(queue := next.slots[o].queue)]
    ensures LockedOnly(next, t, o, true)
  {
  }

  lemma SkipsOne(w: W.State, w1: W.State, o: nat, pops: nat, freed: nat)
    requires o < |w.slots| && pops < W.MAX_POPS_PER_WAKE && w.slots[o].queue != []
    requires !W.IsLive(w.entries, w.slots[o].queue[0])
    requires w1 == w.(slots := w.slots[o := w.slots[o].(queue := w.slots[o].queue[1..])])
    ensures W.WakeOrder(w1, o, pops + 1, freed) == W.WakeOrder(w, o, pops, freed)
  {
    hide W.HeadOf, W.UpdatedStreak, W.Drain, W.Deliver;
    var budget := W.MAX_POPS_PER_WAKE - pops;
    var d := W.Drain(w.entries, w.slots[o].queue, budget);
    DrainSkips(w.entries, w.slots[o].queue, budget);
    if d.found.None? {
      Overwritten(w.slots, o, w1.slots[o], w1.slots[o].(queue := d.rest));
    } else {
      SameDelivery(w, w1, o, d.found.value, d.rest, freed);
    }
  }

  lemma DrainSkips(entries: map<nat, W.Entry>, queue: seq<nat>, budget: nat)
    requires budget > 0 && queue != [] && !W.IsLive(entries, queue[0])
    ensures var d1 := W.Drain(entries, queue[1..], budget - 1);
            W.Drain(entries, queue, budget) == W.Drained(d1.rest, d1.pops + 1, d1.found)
  {
  }

  lemma Overwritten(slots: seq<W.Slot>, o: nat, a: W.Slot, b: W.Slot)
    requires o < |slots|
    ensures slots[o := a][o := b] == slots[o := b]
  {
  }

  /** A delivery replaces the queue, so it does not matter what was popped before. */
  lemma SameDelivery(w: W.State, w1: W.State, o: nat, id: nat, rest: seq<nat>, freed: nat)
    requires o < |w.slots| && id in w.entries
    requires |w1.slots| == |w.slots| && w1 == w.(slots := w.slots[o := w.slots[o].(queue := w1.slots[o].queue)])
    ensures W.Deliver(w1, o, id, rest, freed) == W.Deliver(w, o, id, rest, freed)
  {
    hide W.HeadOf, W.UpdatedStreak;
    var x := W.Deliver(w, o, id, rest, freed).slots[o];
    Overwritten(w.slots, o, w1.slots[o], x);
  }

  // ----- a delivery

  /** Up to the scan: the entry is popped, won and taken off the count. */
  lemma SoloWins(s: State, t: nat, n: nat, cur: State, plan: Plan) returns (next: State)
    requires cur == Solo(s, t, n) && Inv(cur) && cur.At(t) == WakePop(plan)
    requires plan.o < |cur.slots| && plan.pops < W.MAX_POPS_PER_WAKE
    requires cur.slots[plan.o].queue != [] && LiveEntry(cur, cur.slots[plan.o].queue[0])
    ensures var id, slot := cur.slots[plan.o].queue[0], cur.slots[plan.o];
            && next == Solo(s, t, n + 4) && Inv(next)
            && next.At(t) == WakeScan(plan.(pops := plan.pops + 1), id, 0)
            && OthersSame(cur, next, t) && next.regs == cur.regs
            && next.slots == cur.slots[plan.o := slot.(queue := slot.queue[1..], count := slot.count - 1)]
            && next.entries == cur.entries[id := cur.entries[id].(state := W.WOKEN, place := Gone,
                                             sub := Settled, claim := ClaimedBy(t))]
  {
    hide Inv, After, Meaningful, Apply, Solo, NextOrder;
    var id, p := cur.slots[plan.o].queue[0], plan.(pops := plan.pops + 1);
    FrontIsQueued(cur, t, plan);
    var a := OneStep(s, t, n, cur);
    PopIs(cur, t, plan, id);
    var b := OneStep(s, t, n + 1, a);
    LoadIs(a, t, p, id);
    next := SoloWon(s, t, n + 2, b, p, id);
    assert next.entries == cur.entries[id := next.entries[id]];
  }

  lemma SoloWon(s: State, t: nat, n: nat, cur: State, plan: Plan, id: nat) returns (next: State)
    requires cur == Solo(s, t, n) && Inv(cur) && cur.At(t) == WakeCas(plan, id) && LiveEntry(cur, id)
    requires plan.o < |cur.slots| && cur.entries[id].order == plan.o
    ensures next == Solo(s, t, n + 2) && Inv(next) && next.At(t) == WakeScan(plan, id, 0)
    ensures OthersSame(cur, next, t) && next.regs == cur.regs
    ensures next.slots == cur.slots[plan.o := cur.slots[plan.o].(count := cur.slots[plan.o].count - 1)]
    ensures next.entries == cur.entries[id := cur.entries[id].(state := W.WOKEN, place := Gone,
                                          sub := Settled, claim := ClaimedBy(t))]
  {
    hide Inv, After, Meaningful, Apply, Solo, NextOrder;
    var a := OneStep(s, t, n, cur);
    CasIs(cur, t, plan, id);
    next := OneStep(s, t, n + 1, a);
    SubIs(a, t, plan, id);
    assert next.entries == cur.entries[id := next.entries[id]];
  }

  /** From the scan on: the head is stored, the lock let go and the sender taken. */
  lemma SoloSettles(s: State, t: nat, n: nat, cur: State, plan: Plan, id: nat, entries: map<nat, W.Entry>)
    returns (m: nat, next: State)
    requires cur == Solo(s, t, n) && Inv(cur) && cur.At(t) == WakeScan(plan, id, 0) && plan.o < |cur.slots|
    requires SameLive(cur, entries, cur.slots[plan.o].queue) && id in cur.entries
    ensures next == Solo(s, t, m) && Inv(next) && next.At(t) == NextOrder(plan.rest, plan.pops)
    ensures OthersSame(cur, next, t) && next.regs == cur.regs
    ensures next.slots == cur.slots[plan.o := cur.slots[plan.o].(
                            head := W.HeadOf(entries, cur.slots[plan.o].queue), lock := None)]
    ensures next.entries == cur.entries[id := cur.entries[id].(tx := false, claim := TakenOnce)]
  {
    hide Inv, After, Meaningful, Apply, Solo, NextOrder, W.HeadOf;
    var a;
    m, a := SoloScan(s, t, n, cur, plan, id, 0, entries);
    ScanOthers(cur, a, t);
    var b := OneStep(s, t, m, a);
    StoreIs(a, t, plan, id, W.HeadOf(entries, cur.slots[plan.o].queue));
    var d := OneStep(s, t, m + 1, b);
    UnlockIs(b, t, plan, Some(id));
    next := OneStep(s, t, m + 2, d);
    TakeIs(d, t, plan, id);
    m := m + 3;
  }

  lemma ScanOthers(a: State, b: State, t: nat)
    requires b == a.(threads := a.threads[t := b.At(t)])
    ensures OthersSame(a, b, t)
  {
  }

  /** The delivery to the front entry of an order does what `Deliver` does. */
  lemma SoloDelivers(s: State, t: nat, n: nat, cur: State, plan: Plan, w: W.State, freed: nat)
    returns (m: nat, next: State)
    requires cur == Solo(s, t, n) && Inv(cur) && cur.At(t) == WakePop(plan) && LockedOnly(cur, t, plan.o, true)
    requires Matches(cur, w) && plan.o < |cur.slots| && plan.pops < W.MAX_POPS_PER_WAKE
    requires cur.slots[plan.o].queue != [] && LiveEntry(cur, cur.slots[plan.o].queue[0])
    ensures next == Solo(s, t, m) && Inv(next) && OrderDone(cur, next, t, plan, w, freed)
  {
    hide Inv, NextOrder, PcOk, W.HeadOf, Matches, EffectOf, Enact, OrderDone, OthersSame, W.WakeOrder, LockedOnly;
    var q := cur.slots[plan.o].queue;
    SameOrders(cur, w);
    FrontMatches(cur, w, plan.o);
    var won := SoloWins(s, t, n, cur, plan);
    var w1 := W.Deliver(w, plan.o, q[0], q[1..], freed);
    StillLive(cur, won, w, w1, plan.o, freed);
    m, next := SoloSettles(s, t, n + 4, won, plan.(pops := plan.pops + 1), q[0], w1.entries);
    DeliveryMatches(cur, next, t, plan, w, freed);
    SameTrans(cur, won, next, t);
    DeliveryDone(cur, next, t, plan, w, freed);
  }

  lemma SameTrans(a: State, b: State, d: State, t: nat)
    requires OthersSame(a, b, t) && OthersSame(b, d, t)
    ensures OthersSame(a, d, t)
  {
    forall u: nat | u != t ensures d.At(u) == a.At(u) { assert b.At(u) == a.At(u); }
  }

  lemma FrontMatches(s: State, w: W.State, o: nat)
    requires Matches(s, w) && o < |s.slots| && s.slots[o].queue != [] && LiveEntry(s, s.slots[o].queue[0])
    ensures |s.slots| == |w.slots| && SlotMatch(s.slots[o], w.slots[o])
    ensures s.slots[o].queue[0] in w.entries && W.IsLive(w.entries, s.slots[o].queue[0])
  {
    assert EntryMatch(s.entries[s.slots[o].queue[0]], w.entries[s.slots[o].queue[0]]);
  }

  lemma StillLive(cur: State, won: State, w: W.State, w1: W.State, o: nat, freed: nat)
    requires Matches(cur, w) && o < |cur.slots| == |w.slots| && cur.slots[o].queue != []
    requires var q := cur.slots[o].queue;
             && q[0] in cur.entries && q[0] in w.entries && w1 == W.Deliver(w, o, q[0], q[1..], freed)
             && q[0] in won.entries && won.entries == cur.entries[q[0] := won.entries[q[0]]]
             && won.entries[q[0]].state == W.WOKEN
             && |won.slots| == |cur.slots| && won.slots[o].queue == q[1..]
    ensures SameLive(won, w1.entries, won.slots[o].queue)
  {
    hide W.HeadOf, W.UpdatedStreak;
    forall x | x in won.slots[o].queue
      ensures (LiveEntry(won, x) <==> W.IsLive(w1.entries, x)) &&
              (LiveEntry(won, x) ==> won.entries[x].timestamp == w1.entries[x].timestamp)
    {
      if x in cur.entries { assert EntryMatch(cur.entries[x], w.entries[x]); }
    }
  }

  /** Queue, count, head and entry after the delivery. */
  ghost predicate Delivered(a: State, z: State, o: nat, head: nat)
    requires o < |a.slots| && a.slots[o].queue != [] && a.slots[o].queue[0] in a.entries
  {
    var q, id := a.slots[o].queue, a.slots[o].queue[0];
    && z.regs == a.regs && z.slots == a.slots[o := Slot.Slot(q[1..], a.slots[o].count - 1, head, None)]
    && id in z.entries && z.entries == a.entries[id := z.entries[id]]
    && z.entries[id].state == W.WOKEN && !z.entries[id].tx
    && z.entries[id].timestamp == a.entries[id].timestamp && z.entries[id].order == a.entries[id].order
  }

  lemma DeliveryMatches(cur: State, next: State, t: nat, plan: Plan, w: W.State, freed: nat)
    requires Matches(cur, w) && plan.o < |cur.slots| == |w.slots| && cur.slots[plan.o].queue != []
    requires LiveEntry(cur, cur.slots[plan.o].queue[0]) && cur.slots[plan.o].queue[0] in w.entries
    requires var q := cur.slots[plan.o].queue;
             Delivered(cur, next, plan.o, W.HeadOf(W.Deliver(w, plan.o, q[0], q[1..], freed).entries, q[1..]))
    ensures Matches(next, W.Deliver(w, plan.o, cur.slots[plan.o].queue[0], cur.slots[plan.o].queue[1..], freed))
  {
    hide W.HeadOf, W.UpdatedStreak;
    var q, id := cur.slots[plan.o].queue, cur.slots[plan.o].queue[0];
    var w1 := W.Deliver(w, plan.o, id, q[1..], freed);
    assert SlotMatch(cur.slots[plan.o], w.slots[plan.o]) && EntryMatch(cur.entries[id], w.entries[id]);
    assert next.entries.Keys == cur.entries.Keys && w1.entries.Keys == w.entries.Keys;
    forall x | x in next.regs ensures x in next.entries && RegMatch(next.regs[x], next.entries[x].order, w1.regs[x]) {
      assert RegMatch(cur.regs[x], cur.entries[x].order, w.regs[x]);
    }
  }

  lemma DeliveryDone(cur: State, next: State, t: nat, plan: Plan, w: W.State, freed: nat)
    requires LockedOnly(cur, t, plan.o, true) && plan.o < |cur.slots| == |w.slots| && plan.pops < W.MAX_POPS_PER_WAKE
    requires cur.slots[plan.o].queue != [] && SlotMatch(cur.slots[plan.o], w.slots[plan.o])
    requires W.IsLive(w.entries, cur.slots[plan.o].queue[0])
    requires Matches(next, W.Deliver(w, plan.o, cur.slots[plan.o].queue[0], cur.slots[plan.o].queue[1..], freed))
    requires next.At(t) == NextOrder(plan.rest, plan.pops + 1) && OthersSame(cur, next, t)
    requires |next.slots| == |cur.slots| && next.slots[plan.o].lock.None?
    requires forall p: nat :: p < |cur.slots| && p != plan.o ==> next.slots[p] == cur.slots[p]
    ensures OrderDone(cur, next, t, plan, w, freed)
  {
    hide Matches, NextOrder, W.Deliver;
    var d := W.Drain(w.entries, w.slots[plan.o].queue, W.MAX_POPS_PER_WAKE - plan.pops);
    assert d == W.Drained(w.slots[plan.o].queue[1..], 1, Some(w.slots[plan.o].queue[0]));
  }

  // ----- a whole wake

  lemma {:induction false} SoloPops(s: State, t: nat, n: nat, cur: State, plan: Plan, w: W.State, freed: nat)
    returns (m: nat, next: State)
    requires cur == Solo(s, t, n) && Inv(cur) && cur.At(t) == WakePop(plan) && LockedOnly(cur, t, plan.o, true)
    requires Matches(cur, w) && plan.o < |cur.slots| && plan.pops <= W.MAX_POPS_PER_WAKE
    ensures next == Solo(s, t, m) && Inv(next) && OrderDone(cur, next, t, plan, w, freed)
    decreases |cur.slots[plan.o].queue|
  {
    hide Inv, NextOrder, Matches, EffectOf, Enact, OthersSame, W.WakeOrder, LockedOnly;
    SameOrders(cur, w);
    var q := cur.slots[plan.o].queue;
    if plan.pops == W.MAX_POPS_PER_WAKE || q == [] {
      next := SoloStops(s, t, n, cur, plan, w, freed);
      m := n + 2;
    } else if LiveEntry(cur, q[0]) {
      m, next := SoloDelivers(s, t, n, cur, plan, w, freed);
    } else {
      var mid, w1 := SoloSkips(s, t, n, cur, plan, w, freed);
      m, next := SoloPops(s, t, n + 2, mid, plan.(pops := plan.pops + 1), w1, freed);
      SameTrans(cur, mid, next, t);
    }
  }

  lemma SoloOrder(s: State, t: nat, n: nat, cur: State, plan: Plan, w: W.State, freed: nat)
    returns (m: nat, next: State)
    requires cur == Solo(s, t, n) && Inv(cur) && cur.At(t) == WakeLock(plan) && LockedOnly(cur, t, 0, false)
    requires Matches(cur, w) && plan.o < |cur.slots| && plan.pops <= W.MAX_POPS_PER_WAKE
    ensures next == Solo(s, t, m) && Inv(next) && OrderDone(cur, next, t, plan, w, freed)
  {
    hide Inv, After, Meaningful, Apply, Solo, NextOrder, Matches, W.WakeOrder, OrderDone;
    var mid := OneStep(s, t, n, cur);
    LockIs(cur, t, plan);
    LockMatches(cur, mid, w, plan.o);
    m, next := SoloPops(s, t, n + 1, mid, plan, w, freed);
    DoneFrom(cur, mid, next, t, plan, w, freed);
  }

  lemma DoneFrom(a: State, b: State, z: State, t: nat, plan: Plan, w: W.State, freed: nat)
    requires OthersSame(a, b, t) && OrderDone(b, z, t, plan, w, freed)
    ensures OrderDone(a, z, t, plan, w, freed)
  {
    hide Matches, W.WakeOrder, NextOrder, LockedOnly;
    SameTrans(a, b, z, t);
  }

  lemma LockMatches(a: State, b: State, w: W.State, o: nat)
    requires Matches(a, w) && b.entries == a.entries && b.regs == a.regs && |b.slots| == |a.slots|
    requires forall p: nat :: p < |a.slots| ==>
               && b.slots[p].queue == a.slots[p].queue && b.slots[p].count == a.slots[p].count
               && b.slots[p].head == a.slots[p].head
    ensures Matches(b, w)
  {
    forall p: nat | p < |b.slots| ensures SlotMatch(b.slots[p], w.slots[p]) {
      assert SlotMatch(a.slots[p], w.slots[p]);
    }
  }

  lemma {:induction false} SoloWakes(
    s: State, t: nat, n: nat, cur: State, orders: seq<nat>, pops: nat, w: W.State, freed: nat)
    returns (m: nat, next: State)
    requires cur == Solo(s, t, n) && Inv(cur) && cur.At(t) == NextOrder(orders, pops) && LockedOnly(cur, t, 0, false)
    requires Matches(cur, w) && pops <= W.MAX_POPS_PER_WAKE && |cur.slots| == |w.slots|
    requires forall i :: 0 <= i < |orders| ==> orders[i] < |w.slots|
    ensures next == Solo(s, t, m) && Inv(next) && next.At(t) == Idle && LockedOnly(next, t, 0, false)
    ensures Matches(next, W.WakeOrders(w, orders, pops, freed)) && OthersSame(cur, next, t)
    decreases |orders|
  {
    hide Inv, Matches, EffectOf, Enact, OthersSame, W.WakeOrder, LockedOnly;
    m, next := n, cur;
    if orders == [] || pops >= W.MAX_POPS_PER_WAKE {
      SameSelf(cur, t);
    } else {
      var plan := Plan(orders[0], orders[1..], pops);
      var mid;
      m, mid := SoloOrder(s, t, n, cur, plan, w, freed);
      var (w1, pops1) := W.WakeOrder(w, orders[0], pops, freed);
      SameOrders(mid, w1);
      NoneLocked(mid, t, plan.o);
      m, next := SoloWakes(s, t, m, mid, orders[1..], pops1, w1, freed);
      SameTrans(cur, mid, next, t);
    }
  }

  lemma SameSelf(s: State, t: nat)
    ensures OthersSame(s, s, t)
  {
  }

  lemma NoneLocked(s: State, t: nat, o: nat)
    requires LockedOnly(s, t, o, false)
    ensures LockedOnly(s, t, 0, false)
  {
  }

  /** A wake that nobody interrupts serves the orders it is given as the whole operation does. */
  lemma SoloWake(s: State, t: nat, w: W.State, freed: nat) returns (n: nat, next: State)
    requires Inv(s) && s.At(t) == Idle && LockedOnly(s, t, 0, false) && Matches(s, w) && |w.slots| > 0
    ensures next == Solo(Apply(s, StartWake(t, W.Candidates(w, freed))), t, n)
    ensures next.At(t) == Idle && OthersSame(s, next, t) && Matches(next, W.Apply(w, W.Wake(freed)))
  {
    hide Inv, Matches, OthersSame, W.Candidates, LockedOnly, NextOrder, Apply, Solo, W.WakeOrders, W.Apply;
    var orders := W.Candidates(w, freed);
    W.CandidatesInRange(w, freed);
    SameOrders(s, w);
    WholeWake(w, freed);
    var begun := Apply(s, StartWake(t, orders));
    InvStep(s, StartWake(t, orders));
    StartsWake(s, t, orders, w);
    SoloZero(begun, t);
    n, next := SoloWakes(begun, t, 0, begun, orders, 0, w, freed);
    SameTrans(s, begun, next, t);
  }

  lemma SoloZero(s: State, t: nat)
    ensures Solo(s, t, 0) == s
  {
  }

  lemma WholeWake(w: W.State, freed: nat)
    requires |w.slots| > 0
    ensures forall i :: 0 <= i < |W.Candidates(w, freed)| ==> W.Candidates(w, freed)[i] < |w.slots|
    ensures W.Apply(w, W.Wake(freed)) == W.WakeOrders(w, W.Candidates(w, freed), 0, freed)
  {
    hide W.Candidates, W.WakeOrders;
    W.CandidatesInRange(w, freed);
  }

  lemma StartsWake(s: State, t: nat, orders: seq<nat>, w: W.State)
    requires s.At(t) == Idle && Matches(s, w) && LockedOnly(s, t, 0, false)
    requires forall i :: 0 <= i < |orders| ==> orders[i] < |s.slots|
    ensures var begun := Apply(s, StartWake(t, orders));
            && begun.At(t) == NextOrder(orders, 0) && OthersSame(s, begun, t)
            && Matches(begun, w) && LockedOnly(begun, t, 0, false) && begun.slots == s.slots
  {
  }

  // ----- prepare

  /** A prepare that nobody interrupts. */
  lemma SoloPrepare(s: State, t: nat, id: nat, w: W.State) returns (n: nat, next: State)
    requires Inv(s) && s.At(t) == Idle && LockedOnly(s, t, 0, false) && Matches(s, w) && |w.slots| > 0
    ensures next == Solo(Apply(s, StartPrepare(t, id)), t, n)
    ensures next.At(t) == Idle && OthersSame(s, next, t) && Matches(next, W.Apply(w, W.Prepare(id)))
  {
    hide Inv, PcOk, Matches, OthersSame, Enact, EffectOf, LockedOnly;
    var begun := Apply(s, StartPrepare(t, id));
    InvStep(s, StartPrepare(t, id));
    assert begun == Solo(begun, t, 0);
    if id in s.regs && s.regs[id].pending && !s.regs[id].registered {
      Pending(s, id);
      SameOrders(s, w);
      BegunSame(s, t, id);
      SameLocks(s, begun, t);
      n, next := SoloPushes(begun, t, 0, begun, id);
      PreparedMatches(s, next, id, w);
      SameTrans(s, begun, next, t);
    } else {
      n, next := 0, begun;
      SameSelf(s, t);
      NotPending(s, id, w);
    }
  }

  lemma Pending(s: State, id: nat)
    requires Inv(s) && id in s.regs && s.regs[id].pending
    ensures id in s.entries && s.regs[id].busy.None? && s.entries[id].order < |s.slots|
  {
    assert RegOk(s, id) && EntryOk(s, id);
  }

  lemma NotPending(s: State, id: nat, w: W.State)
    requires Matches(s, w) && |w.slots| > 0 && !(id in s.regs && s.regs[id].pending && !s.regs[id].registered)
    ensures W.Apply(w, W.Prepare(id)) == w
  {
    if id in s.regs { assert RegMatch(s.regs[id], s.entries[id].order, w.regs[id]); }
  }

  lemma SameLocks(a: State, b: State, t: nat)
    requires LockedOnly(a, t, 0, false) && b.slots == a.slots
    ensures LockedOnly(b, t, 0, false)
  {
  }

  lemma BegunSame(s: State, t: nat, id: nat)
    ensures OthersSame(s, Apply(s, StartPrepare(t, id)), t)
  {
  }

  lemma SoloPushes(s: State, t: nat, n: nat, cur: State, id: nat) returns (m: nat, next: State)
    requires cur == Solo(s, t, n) && Inv(cur) && cur.At(t) == PrepLock(id) && LockedOnly(cur, t, 0, false)
    requires id in cur.entries && cur.entries[id].order < |cur.slots| && id in cur.regs
    ensures next == Solo(s, t, m) && next.At(t) == Idle && OthersSame(cur, next, t)
    ensures var o, e := cur.entries[id].order, cur.entries[id];
            var slot := cur.slots[o];
            && next.slots == cur.slots[o := Slot.Slot(slot.queue + [id], slot.count + 1,
                                                      if slot.count == 0 then e.timestamp else slot.head, None)]
            && next.entries == cur.entries[id := e.(place := Queued)]
            && next.regs == cur.regs[id := cur.regs[id].(registered := true, busy := None)]
  {
    hide Inv, PcOk, NextOrder, OthersSame, EffectOf, Enact;
    var a := SoloPush(s, t, n, cur, id);
    m, next := SoloAdd(s, t, n + 2, a, id);
    SameTrans(cur, a, next, t);
    assert next.entries == cur.entries[id := next.entries[id]];
    assert next.slots == cur.slots[cur.entries[id].order := next.slots[cur.entries[id].order]];
  }

  lemma SoloPush(s: State, t: nat, n: nat, cur: State, id: nat) returns (next: State)
    requires cur == Solo(s, t, n) && Inv(cur) && cur.At(t) == PrepLock(id) && LockedOnly(cur, t, 0, false)
    requires id in cur.entries && cur.entries[id].order < |cur.slots|
    ensures next == Solo(s, t, n + 2) && Inv(next) && next.At(t) == PrepAdd(id) && OthersSame(cur, next, t)
    ensures next.regs == cur.regs && next.entries == cur.entries[id := cur.entries[id].(place := Pushed(t))]
    ensures var o := cur.entries[id].order;
            next.slots == cur.slots[o := cur.slots[o].(queue := cur.slots[o].queue + [id], lock := Some(t))]
  {
    hide Inv, After, Meaningful, Apply, Solo, NextOrder;
    var o := cur.entries[id].order;
    var a := OneStep(s, t, n, cur);
    PrepLockIs(cur, t, id, o);
    next := OneStep(s, t, n + 1, a);
    PushIs(a, t, id, o);
  }

  lemma SoloAdd(s: State, t: nat, n: nat, cur: State, id: nat) returns (m: nat, next: State)
    requires cur == Solo(s, t, n) && Inv(cur) && cur.At(t) == PrepAdd(id)
    requires id in cur.entries && cur.entries[id].order < |cur.slots| && id in cur.regs
    ensures next == Solo(s, t, m) && next.At(t) == Idle && OthersSame(cur, next, t)
    ensures next.entries == cur.entries[id := cur.entries[id].(place := Queued)]
    ensures next.regs == cur.regs[id := cur.regs[id].(registered := true, busy := None)]
    ensures var o, slot := cur.entries[id].order, cur.slots[cur.entries[id].order];
            next.slots == cur.slots[o := slot.(count := slot.count + 1, lock := None,
                                      head := if slot.count == 0 then cur.entries[id].timestamp else slot.head)]
  {
    hide Inv, After, Meaningful, Apply, Solo, NextOrder;
    var o := cur.entries[id].order;
    var a := OneStep(s, t, n, cur);
    AddIs(cur, t, id, o);
    m := n + 1;
    if cur.slots[o].count == 0 {
      var b := OneStep(s, t, m, a);
      HeadIs(a, t, id, o);
      m, a := m + 1, b;
    }
    next := OneStep(s, t, m, a);
    PrepUnlockIs(a, t, id, o);
    m := m + 1;
  }

  lemma PreparedMatches(s: State, next: State, id: nat, w: W.State)
    requires Matches(s, w) && id in s.regs && id in s.entries && s.entries[id].order < |s.slots| == |w.slots|
    requires s.regs[id].pending && !s.regs[id].registered
    requires var o, e := s.entries[id].order, s.entries[id];
             var slot := s.slots[o];
             && next.slots == s.slots[o := Slot.Slot(slot.queue + [id], slot.count + 1,
                                                     if slot.count == 0 then e.timestamp else slot.head, None)]
             && next.entries == s.entries[id := e.(place := Queued)]
             && next.regs == s.regs[id := s.regs[id].(registered := true, pending := false, busy := None)]
    ensures Matches(next, W.Apply(w, W.Prepare(id)))
  {
    hide W.Apply;
    var o := s.entries[id].order;
    assert SlotMatch(s.slots[o], w.slots[o]) && EntryMatch(s.entries[id], w.entries[id]);
    RegKnown(s, id, w);
    WholePrepare(w, id);
    var w' := W.Prepared(w, id);
    assert next.entries.Keys == s.entries.Keys && next.regs.Keys == s.regs.Keys && w'.regs.Keys == w.regs.Keys;
    forall x | x in next.regs ensures x in next.entries && RegMatch(next.regs[x], next.entries[x].order, w'.regs[x]) {
      RegKnown(s, x, w);
    }
  }

  lemma WholePrepare(w: W.State, id: nat)
    requires |w.slots| > 0 && id in w.regs && !w.regs[id].registered && w.regs[id].pending
    requires w.regs[id].order < |w.slots| && id in w.entries
    ensures W.Apply(w, W.Prepare(id)) == W.Prepared(w, id)
  {
    hide W.Prepared, W.Candidates, W.WakeOrders;
  }

  // ----- revoke and drop

  /** A revoke, or the drop of a registered waiter, that nobody interrupts. */
  lemma SoloRevoke(s: State, t: nat, id: nat, dropping: bool, w: W.State) returns (n: nat, next: State)
    requires Inv(s) && s.At(t) == Idle && Matches(s, w) && |w.slots| > 0
    requires id in s.regs && s.regs[id].registered && s.regs[id].busy.None?
    ensures next == Solo(Apply(s, StartRevoke(t, id, dropping)), t, n)
    ensures next.At(t) == Idle && OthersSame(s, next, t)
    ensures Matches(next, W.Apply(w, if dropping then W.Drop(id) else W.Revoke(id)))
  {
    hide Inv, PcOk, Matches, OthersSame, Enact, EffectOf, LockedOnly;
    var begun := Apply(s, StartRevoke(t, id, dropping));
    InvStep(s, StartRevoke(t, id, dropping));
    Registered(s, id);
    assert begun == Solo(begun, t, 0);
    n, next := SoloLeaves(begun, t, 0, begun, id, dropping);
    RevokedMatches(s, next, id, dropping, w);
    RevokeBegunSame(s, t, id, dropping);
    SameTrans(s, begun, next, t);
  }

  lemma Registered(s: State, id: nat)
    requires Inv(s) && id in s.regs
    ensures id in s.entries && s.entries[id].order < |s.slots|
  {
    assert RegOk(s, id) && EntryOk(s, id);
  }

  lemma RevokeBegunSame(s: State, t: nat, id: nat, dropping: bool)
    ensures OthersSame(s, Apply(s, StartRevoke(t, id, dropping)), t)
  {
  }

  /** A live entry is revoked, its sender taken and its count lowered; any other stays. */
  ghost predicate Left(a: State, z: State, id: nat)
    requires id in a.entries && a.entries[id].order < |a.slots|
  {
    var e, o := a.entries[id], a.entries[id].order;
    if e.state == W.LIVE then
      && id in z.entries && z.entries == a.entries[id := z.entries[id]]
      && z.entries[id].state == W.REVOKED && !z.entries[id].tx && z.entries[id].order == o
      && z.entries[id].timestamp == e.timestamp
      && z.slots == a.slots[o := a.slots[o].(count := a.slots[o].count - 1)]
    else z.entries == a.entries && z.slots == a.slots
  }

  lemma SoloLeaves(s: State, t: nat, n: nat, cur: State, id: nat, dropping: bool) returns (m: nat, next: State)
    requires cur == Solo(s, t, n) && Inv(cur) && cur.At(t) == RevCas(id, dropping)
    requires id in cur.entries && cur.entries[id].order < |cur.slots| && id in cur.regs
    ensures next == Solo(s, t, m) && next.At(t) == Idle && OthersSame(cur, next, t) && Left(cur, next, id)
    ensures next.regs == if dropping then cur.regs - {id}
                         else cur.regs[id := cur.regs[id].(registered := false, busy := None)]
  {
    hide Inv, After, Meaningful, Apply, Solo, NextOrder, Left;
    var a;
    if cur.entries[id].state == W.LIVE {
      a := SoloTakes(s, t, n, cur, id, dropping);
      m := n + 3;
    } else {
      a := OneStep(s, t, n, cur);
      RevMissIs(cur, t, id, dropping);
      m := n + 1;
      LeftAlone(cur, a, id);
    }
    next := OneStep(s, t, m, a);
    RevEndIs(a, t, id, dropping);
    m := m + 1;
    SameLeft(cur, a, next, id);
    SameTrans(cur, a, next, t);
  }

  lemma LeftAlone(a: State, z: State, id: nat)
    requires id in a.entries && a.entries[id].order < |a.slots| && a.entries[id].state != W.LIVE
    requires z.entries == a.entries && z.slots == a.slots
    ensures Left(a, z, id)
  {
  }

  lemma SameLeft(a: State, y: State, z: State, id: nat)
    requires id in a.entries && a.entries[id].order < |a.slots| && Left(a, y, id)
    requires z.entries == y.entries && z.slots == y.slots
    ensures Left(a, z, id)
  {
  }

  lemma SoloTakes(s: State, t: nat, n: nat, cur: State, id: nat, dropping: bool) returns (next: State)
    requires cur == Solo(s, t, n) && Inv(cur) && cur.At(t) == RevCas(id, dropping) && LiveEntry(cur, id)
    requires cur.entries[id].order < |cur.slots|
    ensures next == Solo(s, t, n + 3) && Inv(next) && next.At(t) == RevEnd(id, dropping) && next.regs == cur.regs
    ensures OthersSame(cur, next, t) && Left(cur, next, id)
  {
    hide Inv, PcOk, NextOrder, EffectOf, Enact, OthersSame;
    var a := SoloRevokes(s, t, n, cur, id, dropping);
    next := SoloLowers(s, t, n + 2, a, id, dropping);
    SameTrans(cur, a, next, t);
    assert next.entries == cur.entries[id := next.entries[id]];
  }

  lemma SoloRevokes(s: State, t: nat, n: nat, cur: State, id: nat, dropping: bool) returns (next: State)
    requires cur == Solo(s, t, n) && Inv(cur) && cur.At(t) == RevCas(id, dropping) && LiveEntry(cur, id)
    ensures next == Solo(s, t, n + 2) && Inv(next) && next.At(t) == RevSub(id, dropping) && OthersSame(cur, next, t)
    ensures next.regs == cur.regs && next.slots == cur.slots
    ensures next.entries == cur.entries[id := cur.entries[id].(state := W.REVOKED, tx := false,
                                          sub := Due(t), claim := TakenOnce)]
  {
    hide Inv, After, Meaningful, Apply, Solo, NextOrder;
    var a := OneStep(s, t, n, cur);
    RevCasIs(cur, t, id, dropping);
    next := OneStep(s, t, n + 1, a);
    RevTakeIs(a, t, id, dropping);
    assert next.entries == cur.entries[id := next.entries[id]];
  }

  lemma SoloLowers(s: State, t: nat, n: nat, cur: State, id: nat, dropping: bool) returns (next: State)
    requires cur == Solo(s, t, n) && Inv(cur) && cur.At(t) == RevSub(id, dropping)
    requires id in cur.entries && cur.entries[id].order < |cur.slots|
    ensures next == Solo(s, t, n + 1) && Inv(next) && next.At(t) == RevEnd(id, dropping) && OthersSame(cur, next, t)
    ensures next.regs == cur.regs && next.entries == cur.entries[id := cur.entries[id].(sub := Settled)]
    ensures var o := cur.entries[id].order; next.slots == cur.slots[o := cur.slots[o].(count := cur.slots[o].count - 1)]
  {
    hide Inv, After, Meaningful, Apply, Solo, NextOrder;
    next := OneStep(s, t, n, cur);
    RevSubIs(cur, t, id, dropping, cur.entries[id].order);
  }

  lemma RevokedMatches(s: State, next: State, id: nat, dropping: bool, w: W.State)
    requires Matches(s, w) && id in s.regs && s.regs[id].registered && |w.slots| > 0
    requires id in s.entries && s.entries[id].order < |s.slots| && Left(s, next, id)
    requires if dropping then next.regs == s.regs - {id}
             else next.regs == s.regs[id := s.regs[id].(registered := false, busy := None)]
    ensures Matches(next, W.Apply(w, if dropping then W.Drop(id) else W.Revoke(id)))
  {
    hide Left, W.RevokeEntry, SlotMatch, EntryMatch;
    LeftMatches(s, next, id, w);
    RegKnown(s, id, w);
    var w' := W.Apply(w, if dropping then W.Drop(id) else W.Revoke(id));
    assert next.regs.Keys == w'.regs.Keys;
    forall x | x in next.regs ensures x in next.entries && RegMatch(next.regs[x], next.entries[x].order, w'.regs[x]) {
      RegKnown(s, x, w);
    }
  }

  lemma RegKnown(s: State, id: nat, w: W.State)
    requires Matches(s, w) && id in s.regs
    ensures id in w.regs && id in s.entries && RegMatch(s.regs[id], s.entries[id].order, w.regs[id])
  {
  }

  lemma LeftMatches(s: State, next: State, id: nat, w: W.State)
    requires Matches(s, w) && id in s.regs && s.regs[id].registered
    requires id in s.entries && s.entries[id].order < |s.slots| && Left(s, next, id)
    ensures id in w.regs && W.RevokeEntry(w, id).regs == w.regs
    ensures var w' := W.RevokeEntry(w, id);
            && |next.slots| == |w'.slots|
            && (forall o: nat :: o < |next.slots| ==> SlotMatch(next.slots[o], w'.slots[o]))
            && next.entries.Keys == w'.entries.Keys == s.entries.Keys
            && (forall x :: x in next.entries ==>
                  EntryMatch(next.entries[x], w'.entries[x]) && next.entries[x].order == s.entries[x].order)
  {
    var o := s.entries[id].order;
    assert SlotMatch(s.slots[o], w.slots[o]) && EntryMatch(s.entries[id], w.entries[id]);
    assert RegMatch(s.regs[id], o, w.regs[id]);
    var w' := W.RevokeEntry(w, id);
    forall p: nat | p < |s.slots| ensures SlotMatch(next.slots[p], w'.slots[p]) {
      assert SlotMatch(s.slots[p], w.slots[p]);
    }
    forall x | x in s.entries
      ensures x in next.entries && x in w'.entries && EntryMatch(next.entries[x], w'.entries[x])
    {
      assert EntryMatch(s.entries[x], w.entries[x]);
    }
    assert next.entries.Keys == s.entries.Keys && w'.entries.Keys == w.entries.Keys;
  }

  // ----- polling and registering

  /** A poll by a waiter still listening. */
  lemma PollMatches(s: State, id: nat, w: W.State)
    requires Matches(s, w) && W.Inv(w) && |w.slots| > 0 && id in s.regs && s.regs[id].busy.None?
    requires id in w.regs && w.regs[id].rxOpen
    ensures Matches(Apply(s, PollReady(id)), W.Apply(w, W.Poll(id)))
  {
    hide W.Inv, W.Apply, Apply;
    RegKnown(s, id, w);
    SentMeansTaken(w, id);
    assert EntryMatch(s.entries[id], w.entries[id]);
    WholePoll(w, id);
    StepPoll(s, id);
    var s', w' := Apply(s, PollReady(id)), W.Apply(w, W.Poll(id));
    assert s'.regs.Keys == s.regs.Keys && w'.regs.Keys == w.regs.Keys;
    forall x | x in s'.regs ensures x in s'.entries && RegMatch(s'.regs[x], s'.entries[x].order, w'.regs[x]) {
      RegKnown(s, x, w);
    }
  }

  lemma WholePoll(w: W.State, id: nat)
    requires |w.slots| > 0 && id in w.regs && w.regs[id].rxOpen && id in w.entries
    requires w.entries[id].sent.Some? ==> !w.entries[id].hasTx
    ensures W.Apply(w, W.Poll(id)) == if w.entries[id].hasTx then w
                                      else w.(regs := w.regs[id := w.regs[id].(rxOpen := false, registered := false)])
  {
    hide W.Candidates, W.WakeOrders;
  }

  lemma StepPoll(s: State, id: nat)
    requires id in s.regs && s.regs[id].busy.None? && id in s.entries
    ensures Apply(s, PollReady(id)) == if s.entries[id].tx then s
                                       else s.(regs := s.regs[id := s.regs[id].(registered := false)])
  {
    hide EffectOf, Enact;
  }

  lemma SentMeansTaken(w: W.State, id: nat)
    requires W.Inv(w) && id in w.regs
    ensures id in w.entries && (w.entries[id].sent.Some? ==> !w.entries[id].hasTx)
  {
    assert W.RegOk(w, id);
    assert W.EntryOk(w, id);
  }

  lemma RegisterMatches(s: State, order: nat, timestamp: nat, w: W.State)
    requires Matches(s, w) && |w.slots| > 0 && timestamp < W.NO_WAITERS_TIMESTAMP
    requires w.next !in s.entries && w.next !in s.regs
    ensures Matches(Apply(s, Event.Register(w.next, order, timestamp)), W.Apply(w, W.Register(order, timestamp)))
  {
    var s', w' := Apply(s, Event.Register(w.next, order, timestamp)), W.Apply(w, W.Register(order, timestamp));
    assert s'.entries.Keys == w'.entries.Keys && s'.regs.Keys == w'.regs.Keys;
    forall x | x in s'.regs ensures x in s'.entries && RegMatch(s'.regs[x], s'.entries[x].order, w'.regs[x]) {
      if x != w.next { assert RegMatch(s.regs[x], s.entries[x].order, w.regs[x]); }
    }
  }
}
