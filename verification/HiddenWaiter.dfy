/** A run of the waiter protocol (src/async_alloc.rs) after which a live, registered, queued
    waiter stays out of sight: its order is counted, but its head is the sentinel. Waiter 1
    is revoked up to its compare-exchange; a wake pops waiter 0 and finds no live entry
    behind it; waiter 2 prepares while the count is still one too high; then the revoke ends.
 */
module HiddenWaiter {
  import opened Bitmaps
  import W = Waiters
  import opened StuckOrder
  import opened WaiterInterleaving

  /** One order, entries 0, 1 and 2 and their registrations, and threads 1, 2 and 3. */
  ghost predicate Scene(s: State, slot: Slot, e0: Entry, e1: Entry, e2: Entry,
                        r0: Reg, r1: Reg, r2: Reg, p1: Pc, p2: Pc, p3: Pc)
  {
    && s.slots == [slot] && s.entries.Keys == {0, 1, 2} && s.regs.Keys == {0, 1, 2}
    && s.entries[0] == e0 && s.entries[1] == e1 && s.entries[2] == e2
    && s.regs[0] == r0 && s.regs[1] == r1 && s.regs[2] == r2
    && s.At(1) == p1 && s.At(2) == p2 && s.At(3) == p3 && s.threads.Keys <= {1, 2, 3}
  }

  /** A live entry, and one that was woken or revoked; the number is also its time. */
  function Waiter(n: nat, place: Place): Entry
  {
    Entry.Entry(W.LIVE, true, 0, n, place, Waiting, Unclaimed)
  }

  function Settler(n: nat, state: W.EntryState, tx: bool, place: Place, sub: Sub, claim: Claim): Entry
  {
    Entry.Entry(state, tx, 0, n, place, sub, claim)
  }

  function Ready(): Reg { Reg(true, false, None) }

  function Waits(): Reg { Reg(false, true, None) }

  lemma RunSnoc(s: State, es: seq<Event>, e: Event)
    ensures Run(s, es + [e]) == Apply(Run(s, es), e)
  {
    assert (es + [e])[..|es + [e]| - 1] == es;
  }

  lemma Advance(s: State, es: seq<Event>, cur: State, e: Event) returns (es': seq<Event>, next: State)
    requires cur == Run(s, es)
    ensures es' == es + [e] && next == Run(s, es') && next == Apply(cur, e)
  {
    RunSnoc(s, es, e);
    es', next := es + [e], Apply(cur, e);
  }

  lemma Begin() returns (es: seq<Event>, cur: State)
    ensures es == [] && cur == Run(Init(1), es)
    ensures cur.slots == [Slot.Slot([], 0, W.NO_WAITERS_TIMESTAMP, None)]
    ensures cur.entries == map[] && cur.regs == map[] && cur.threads == map[]
  {
    es, cur := [], Init(1);
  }

  /** A step of the scan behind a popped entry changes only the thread's program counter. */
  lemma ScanMoves(s: State, t: nat, plan: Plan, id: nat, i: nat)
    requires s.At(t) == WakeScan(plan, id, i) && Meaningful(s, s.At(t))
    ensures var q := s.slots[plan.o].queue;
            var pc := if i >= |q| then WakeStore(plan, id, W.NO_WAITERS_TIMESTAMP)
                      else if s.entries[q[i]].state == W.LIVE then WakeStore(plan, id, s.entries[q[i]].timestamp)
                      else WakeScan(plan, id, i + 1);
            Apply(s, Step(t)) == s.(threads := s.threads[t := pc])
  {
  }

  lemma ThreeWaiters() returns (es: seq<Event>, cur: State)
    ensures cur == Run(Init(1), es)
    ensures Scene(cur, Slot.Slot([], 0, W.NO_WAITERS_TIMESTAMP, None),
                  Waiter(0, New), Waiter(1, New), Waiter(2, New),
                  Ready(), Ready(), Ready(), Idle, Idle, Idle)
  {
    hide Run, Init;
    es, cur := Begin();
    es, cur := Advance(Init(1), es, cur, Event.Register(0, 0, 0));
    es, cur := Advance(Init(1), es, cur, Event.Register(1, 0, 1));
    es, cur := Advance(Init(1), es, cur, Event.Register(2, 0, 2));
  }

  lemma FirstLocked() returns (es: seq<Event>, cur: State)
    ensures cur == Run(Init(1), es)
    ensures Scene(cur, Slot.Slot([], 0, W.NO_WAITERS_TIMESTAMP, Some(1)),
                  Waiter(0, New), Waiter(1, New), Waiter(2, New),
                  Reg(false, false, Some(1)), Ready(), Ready(), PrepPush(0), Idle, Idle)
  {
    hide Run, Init;
    es, cur := ThreeWaiters();
    es, cur := Advance(Init(1), es, cur, StartPrepare(1, 0));
    assert Scene(cur, Slot.Slot([], 0, W.NO_WAITERS_TIMESTAMP, None),
                 Waiter(0, New), Waiter(1, New), Waiter(2, New),
                 Reg(false, false, Some(1)), Ready(), Ready(), PrepLock(0), Idle, Idle);
    es, cur := Advance(Init(1), es, cur, Step(1));
  }

  lemma FirstPushed() returns (es: seq<Event>, cur: State)
    ensures cur == Run(Init(1), es)
    ensures Scene(cur, Slot.Slot([0], 0, W.NO_WAITERS_TIMESTAMP, Some(1)),
                  Waiter(0, Pushed(1)), Waiter(1, New), Waiter(2, New),
                  Reg(false, false, Some(1)), Ready(), Ready(), PrepAdd(0), Idle, Idle)
  {
    hide Run, Init;
    es, cur := FirstLocked();
    es, cur := Advance(Init(1), es, cur, Step(1));
    assert cur.slots[0].queue == [0];
  }

  lemma FirstCounted() returns (es: seq<Event>, cur: State)
    ensures cur == Run(Init(1), es)
    ensures Scene(cur, Slot.Slot([0], 1, W.NO_WAITERS_TIMESTAMP, Some(1)),
                  Waiter(0, Queued), Waiter(1, New), Waiter(2, New),
                  Reg(false, false, Some(1)), Ready(), Ready(), PrepHead(0), Idle, Idle)
  {
    hide Run, Init;
    es, cur := FirstPushed();
    es, cur := Advance(Init(1), es, cur, Step(1));
  }

  lemma FirstShown() returns (es: seq<Event>, cur: State)
    ensures cur == Run(Init(1), es)
    ensures Scene(cur, Slot.Slot([0], 1, 0, Some(1)),
                  Waiter(0, Queued), Waiter(1, New), Waiter(2, New),
                  Reg(false, false, Some(1)), Ready(), Ready(), PrepUnlock(0), Idle, Idle)
  {
    hide Run, Init;
    es, cur := FirstCounted();
    es, cur := Advance(Init(1), es, cur, Step(1));
  }

  lemma FirstWaits() returns (es: seq<Event>, cur: State)
    ensures cur == Run(Init(1), es)
    ensures Scene(cur, Slot.Slot([0], 1, 0, None),
                  Waiter(0, Queued), Waiter(1, New), Waiter(2, New),
                  Waits(), Ready(), Ready(), Idle, Idle, Idle)
  {
    hide Run, Init;
    es, cur := FirstShown();
    es, cur := Advance(Init(1), es, cur, Step(1));
  }

  lemma SecondLocked() returns (es: seq<Event>, cur: State)
    ensures cur == Run(Init(1), es)
    ensures Scene(cur, Slot.Slot([0], 1, 0, Some(1)),
                  Waiter(0, Queued), Waiter(1, New), Waiter(2, New),
                  Waits(), Reg(false, false, Some(1)), Ready(), PrepPush(1), Idle, Idle)
  {
    hide Run, Init;
    es, cur := FirstWaits();
    es, cur := Advance(Init(1), es, cur, StartPrepare(1, 1));
    assert Scene(cur, Slot.Slot([0], 1, 0, None),
                 Waiter(0, Queued), Waiter(1, New), Waiter(2, New),
                 Waits(), Reg(false, false, Some(1)), Ready(), PrepLock(1), Idle, Idle);
    es, cur := Advance(Init(1), es, cur, Step(1));
  }

  lemma SecondPushed() returns (es: seq<Event>, cur: State)
    ensures cur == Run(Init(1), es)
    ensures Scene(cur, Slot.Slot([0, 1], 1, 0, Some(1)),
                  Waiter(0, Queued), Waiter(1, Pushed(1)), Waiter(2, New),
                  Waits(), Reg(false, false, Some(1)), Ready(), PrepAdd(1), Idle, Idle)
  {
    hide Run, Init;
    es, cur := SecondLocked();
    es, cur := Advance(Init(1), es, cur, Step(1));
    assert cur.slots[0].queue == [0, 1];
  }

  lemma SecondWaits() returns (es: seq<Event>, cur: State)
    ensures cur == Run(Init(1), es)
    ensures Scene(cur, Slot.Slot([0, 1], 2, 0, None),
                  Waiter(0, Queued), Waiter(1, Queued), Waiter(2, New),
                  Waits(), Waits(), Ready(), Idle, Idle, Idle)
  {
    hide Run, Init;
    es, cur := SecondPushed();
    es, cur := Advance(Init(1), es, cur, Step(1));
    assert Scene(cur, Slot.Slot([0, 1], 2, 0, Some(1)),
                 Waiter(0, Queued), Waiter(1, Queued), Waiter(2, New),
                 Waits(), Reg(false, false, Some(1)), Ready(), PrepUnlock(1), Idle, Idle);
    es, cur := Advance(Init(1), es, cur, Step(1));
  }

  lemma SecondRevoked() returns (es: seq<Event>, cur: State)
    ensures cur == Run(Init(1), es)
    ensures Scene(cur, Slot.Slot([0, 1], 2, 0, None),
                  Waiter(0, Queued), Settler(1, W.REVOKED, true, Queued, Due(1), ClaimedBy(1)), Waiter(2, New),
                  Waits(), Reg(false, true, Some(1)), Ready(), RevTake(1, false), Idle, Idle)
  {
    hide Run, Init;
    es, cur := SecondWaits();
    es, cur := Advance(Init(1), es, cur, StartRevoke(1, 1, false));
    assert Scene(cur, Slot.Slot([0, 1], 2, 0, None),
                 Waiter(0, Queued), Waiter(1, Queued), Waiter(2, New),
                 Waits(), Reg(false, true, Some(1)), Ready(), RevCas(1, false), Idle, Idle);
    es, cur := Advance(Init(1), es, cur, Step(1));
  }

  lemma WakeStarts() returns (es: seq<Event>, cur: State)
    ensures cur == Run(Init(1), es)
    ensures Scene(cur, Slot.Slot([0, 1], 2, 0, Some(2)),
                  Waiter(0, Queued), Settler(1, W.REVOKED, true, Queued, Due(1), ClaimedBy(1)), Waiter(2, New),
                  Waits(), Reg(false, true, Some(1)), Ready(), RevTake(1, false), WakePop(Plan(0, [], 0)), Idle)
  {
    hide Run, Init;
    es, cur := SecondRevoked();
    es, cur := Advance(Init(1), es, cur, StartWake(2, [0]));
    assert Scene(cur, Slot.Slot([0, 1], 2, 0, None),
                 Waiter(0, Queued), Settler(1, W.REVOKED, true, Queued, Due(1), ClaimedBy(1)), Waiter(2, New),
                 Waits(), Reg(false, true, Some(1)), Ready(), RevTake(1, false), WakeLock(Plan(0, [], 0)), Idle);
    es, cur := Advance(Init(1), es, cur, Step(2));
  }

  lemma FirstPopped() returns (es: seq<Event>, cur: State)
    ensures cur == Run(Init(1), es)
    ensures Scene(cur, Slot.Slot([1], 2, 0, Some(2)),
                  Waiter(0, Popped(2)), Settler(1, W.REVOKED, true, Queued, Due(1), ClaimedBy(1)), Waiter(2, New),
                  Waits(), Reg(false, true, Some(1)), Ready(), RevTake(1, false), WakeCas(Plan(0, [], 1), 0), Idle)
  {
    hide Run, Init;
    es, cur := WakeStarts();
    es, cur := Advance(Init(1), es, cur, Step(2));
    assert cur.slots[0].queue == [1];
    assert Scene(cur, Slot.Slot([1], 2, 0, Some(2)),
                 Waiter(0, Popped(2)), Settler(1, W.REVOKED, true, Queued, Due(1), ClaimedBy(1)), Waiter(2, New),
                 Waits(), Reg(false, true, Some(1)), Ready(), RevTake(1, false), WakeLoad(Plan(0, [], 1), 0), Idle);
    es, cur := Advance(Init(1), es, cur, Step(2));
  }

  lemma FirstWoken() returns (es: seq<Event>, cur: State)
    ensures cur == Run(Init(1), es)
    ensures Scene(cur, Slot.Slot([1], 1, 0, Some(2)),
                  Settler(0, W.WOKEN, true, Gone, Settled, ClaimedBy(2)),
                  Settler(1, W.REVOKED, true, Queued, Due(1), ClaimedBy(1)),
                  Waiter(2, New),
                  Waits(), Reg(false, true, Some(1)), Ready(),
                  RevTake(1, false), WakeScan(Plan(0, [], 1), 0, 0), Idle)
  {
    hide Run, Init;
    es, cur := FirstPopped();
    es, cur := Advance(Init(1), es, cur, Step(2));
    assert Scene(cur, Slot.Slot([1], 2, 0, Some(2)),
                 Settler(0, W.WOKEN, true, Gone, Due(2), ClaimedBy(2)),
                 Settler(1, W.REVOKED, true, Queued, Due(1), ClaimedBy(1)),
                 Waiter(2, New),
                 Waits(), Reg(false, true, Some(1)), Ready(), RevTake(1, false), WakeSub(Plan(0, [], 1), 0), Idle);
    es, cur := Advance(Init(1), es, cur, Step(2));
  }

  lemma SecondScanned() returns (es: seq<Event>, cur: State)
    ensures cur == Run(Init(1), es)
    ensures Scene(cur, Slot.Slot([1], 1, 0, Some(2)),
                  Settler(0, W.WOKEN, true, Gone, Settled, ClaimedBy(2)),
                  Settler(1, W.REVOKED, true, Queued, Due(1), ClaimedBy(1)),
                  Waiter(2, New),
                  Waits(), Reg(false, true, Some(1)), Ready(),
                  RevTake(1, false), WakeScan(Plan(0, [], 1), 0, 1), Idle)
  {
    hide Run, Init, Apply;
    es, cur := FirstWoken();
    ScanMoves(cur, 2, Plan(0, [], 1), 0, 0);
    es, cur := Advance(Init(1), es, cur, Step(2));
  }

  lemma NothingLiveBehind() returns (es: seq<Event>, cur: State)
    ensures cur == Run(Init(1), es)
    ensures Scene(cur, Slot.Slot([1], 1, 0, Some(2)),
                  Settler(0, W.WOKEN, true, Gone, Settled, ClaimedBy(2)),
                  Settler(1, W.REVOKED, true, Queued, Due(1), ClaimedBy(1)),
                  Waiter(2, New),
                  Waits(), Reg(false, true, Some(1)), Ready(),
                  RevTake(1, false), WakeStore(Plan(0, [], 1), 0, W.NO_WAITERS_TIMESTAMP), Idle)
  {
    hide Run, Init, Apply;
    es, cur := SecondScanned();
    ScanMoves(cur, 2, Plan(0, [], 1), 0, 1);
    es, cur := Advance(Init(1), es, cur, Step(2));
  }

  lemma HeadCleared() returns (es: seq<Event>, cur: State)
    ensures cur == Run(Init(1), es)
    ensures Scene(cur, Slot.Slot([1], 1, W.NO_WAITERS_TIMESTAMP, None),
                  Settler(0, W.WOKEN, true, Gone, Settled, ClaimedBy(2)),
                  Settler(1, W.REVOKED, true, Queued, Due(1), ClaimedBy(1)),
                  Waiter(2, New),
                  Waits(), Reg(false, true, Some(1)), Ready(), RevTake(1, false), WakeTake(Plan(0, [], 1), 0), Idle)
  {
    hide Run, Init;
    es, cur := NothingLiveBehind();
    es, cur := Advance(Init(1), es, cur, Step(2));
    assert Scene(cur, Slot.Slot([1], 1, W.NO_WAITERS_TIMESTAMP, Some(2)),
                 Settler(0, W.WOKEN, true, Gone, Settled, ClaimedBy(2)),
                 Settler(1, W.REVOKED, true, Queued, Due(1), ClaimedBy(1)),
                 Waiter(2, New),
                 Waits(), Reg(false, true, Some(1)), Ready(),
                 RevTake(1, false), WakeUnlock(Plan(0, [], 1), Some(0)), Idle);
    es, cur := Advance(Init(1), es, cur, Step(2));
  }

  lemma FirstServed() returns (es: seq<Event>, cur: State)
    ensures cur == Run(Init(1), es)
    ensures Scene(cur, Slot.Slot([1], 1, W.NO_WAITERS_TIMESTAMP, None),
                  Settler(0, W.WOKEN, false, Gone, Settled, TakenOnce),
                  Settler(1, W.REVOKED, true, Queued, Due(1), ClaimedBy(1)),
                  Waiter(2, New),
                  Waits(), Reg(false, true, Some(1)), Ready(), RevTake(1, false), Idle, Idle)
  {
    hide Run, Init;
    es, cur := HeadCleared();
    es, cur := Advance(Init(1), es, cur, Step(2));
  }

  lemma ThirdLocked() returns (es: seq<Event>, cur: State)
    ensures cur == Run(Init(1), es)
    ensures Scene(cur, Slot.Slot([1], 1, W.NO_WAITERS_TIMESTAMP, Some(3)),
                  Settler(0, W.WOKEN, false, Gone, Settled, TakenOnce),
                  Settler(1, W.REVOKED, true, Queued, Due(1), ClaimedBy(1)),
                  Waiter(2, New),
                  Waits(), Reg(false, true, Some(1)), Reg(false, false, Some(3)),
                  RevTake(1, false), Idle, PrepPush(2))
  {
    hide Run, Init;
    es, cur := FirstServed();
    es, cur := Advance(Init(1), es, cur, StartPrepare(3, 2));
    assert Scene(cur, Slot.Slot([1], 1, W.NO_WAITERS_TIMESTAMP, None),
                 Settler(0, W.WOKEN, false, Gone, Settled, TakenOnce),
                 Settler(1, W.REVOKED, true, Queued, Due(1), ClaimedBy(1)),
                 Waiter(2, New),
                 Waits(), Reg(false, true, Some(1)), Reg(false, false, Some(3)), RevTake(1, false), Idle, PrepLock(2));
    es, cur := Advance(Init(1), es, cur, Step(3));
  }

  lemma ThirdPushed() returns (es: seq<Event>, cur: State)
    ensures cur == Run(Init(1), es)
    ensures Scene(cur, Slot.Slot([1, 2], 1, W.NO_WAITERS_TIMESTAMP, Some(3)),
                  Settler(0, W.WOKEN, false, Gone, Settled, TakenOnce),
                  Settler(1, W.REVOKED, true, Queued, Due(1), ClaimedBy(1)),
                  Waiter(2, Pushed(3)),
                  Waits(), Reg(false, true, Some(1)), Reg(false, false, Some(3)), RevTake(1, false), Idle, PrepAdd(2))
  {
    hide Run, Init;
    es, cur := ThirdLocked();
    es, cur := Advance(Init(1), es, cur, Step(3));
    assert cur.slots[0].queue == [1, 2];
  }

  lemma ThirdWaits() returns (es: seq<Event>, cur: State)
    ensures cur == Run(Init(1), es)
    ensures Scene(cur, Slot.Slot([1, 2], 2, W.NO_WAITERS_TIMESTAMP, None),
                  Settler(0, W.WOKEN, false, Gone, Settled, TakenOnce),
                  Settler(1, W.REVOKED, true, Queued, Due(1), ClaimedBy(1)),
                  Waiter(2, Queued),
                  Waits(), Reg(false, true, Some(1)), Waits(), RevTake(1, false), Idle, Idle)
  {
    hide Run, Init;
    es, cur := ThirdPushed();
    es, cur := Advance(Init(1), es, cur, Step(3));
    assert Scene(cur, Slot.Slot([1, 2], 2, W.NO_WAITERS_TIMESTAMP, Some(3)),
                 Settler(0, W.WOKEN, false, Gone, Settled, TakenOnce),
                 Settler(1, W.REVOKED, true, Queued, Due(1), ClaimedBy(1)),
                 Waiter(2, Queued),
                 Waits(), Reg(false, true, Some(1)), Reg(false, false, Some(3)),
                 RevTake(1, false), Idle, PrepUnlock(2));
    es, cur := Advance(Init(1), es, cur, Step(3));
  }

  lemma RevokeTakes() returns (es: seq<Event>, cur: State)
    ensures cur == Run(Init(1), es)
    ensures Scene(cur, Slot.Slot([1, 2], 2, W.NO_WAITERS_TIMESTAMP, None),
                  Settler(0, W.WOKEN, false, Gone, Settled, TakenOnce),
                  Settler(1, W.REVOKED, false, Queued, Due(1), TakenOnce),
                  Waiter(2, Queued),
                  Waits(), Reg(false, true, Some(1)), Waits(), RevSub(1, false), Idle, Idle)
  {
    hide Run, Init;
    es, cur := ThirdWaits();
    es, cur := Advance(Init(1), es, cur, Step(1));
  }

  lemma RevokeEnds() returns (es: seq<Event>, cur: State)
    ensures cur == Run(Init(1), es)
    ensures Scene(cur, Slot.Slot([1, 2], 1, W.NO_WAITERS_TIMESTAMP, None),
                  Settler(0, W.WOKEN, false, Gone, Settled, TakenOnce),
                  Settler(1, W.REVOKED, false, Queued, Settled, TakenOnce),
                  Waiter(2, Queued),
                  Waits(), Reg(false, false, None), Waits(), Idle, Idle, Idle)
  {
    hide Run, Init;
    es, cur := RevokeTakes();
    es, cur := Advance(Init(1), es, cur, Step(1));
    assert Scene(cur, Slot.Slot([1, 2], 1, W.NO_WAITERS_TIMESTAMP, None),
                 Settler(0, W.WOKEN, false, Gone, Settled, TakenOnce),
                 Settler(1, W.REVOKED, false, Queued, Settled, TakenOnce),
                 Waiter(2, Queued),
                 Waits(), Reg(false, true, Some(1)), Waits(), RevEnd(1, false), Idle, Idle);
    es, cur := Advance(Init(1), es, cur, Step(1));
  }

  /** The same situation in the state of whole operations. */
  function Whole(s: State, next: nat): W.State
  {
    W.State(
      seq(|s.slots|, i requires 0 <= i < |s.slots| => W.Slot(s.slots[i].queue, s.slots[i].count, s.slots[i].head)),
      map id | id in s.entries :: W.Entry(s.entries[id].state, s.entries[id].tx, s.entries[id].timestamp, None),
      map id | id in s.regs && id in s.entries ::
        W.Registration(s.entries[id].order, s.regs[id].registered, s.regs[id].pending, true),
      0, next, [])
  }

  lemma EndIsStuck(s: State)
    requires Scene(s, Slot.Slot([1, 2], 1, W.NO_WAITERS_TIMESTAMP, None),
                   Settler(0, W.WOKEN, false, Gone, Settled, TakenOnce),
                   Settler(1, W.REVOKED, false, Queued, Settled, TakenOnce), Waiter(2, Queued),
                   Waits(), Reg(false, false, None), Waits(), Idle, Idle, Idle)
    ensures Stuck(Whole(s, 3), 0, 2) && NoneWoken(Whole(s, 3), 0)
  {
    hide Stuck, NoneWoken;
    var w := Whole(s, 3);
    assert w.slots == [W.Slot([1, 2], 1, W.NO_WAITERS_TIMESTAMP)];
    StuckShape(w);
  }

  lemma StuckShape(w: W.State)
    requires w.slots == [W.Slot([1, 2], 1, W.NO_WAITERS_TIMESTAMP)] && w.next == 3
    requires w.entries.Keys == {0, 1, 2} && w.regs.Keys == {0, 1, 2}
    requires w.entries[0] == W.Entry(W.WOKEN, false, 0, None) && w.entries[1] == W.Entry(W.REVOKED, false, 1, None)
    requires w.entries[2] == W.Entry(W.LIVE, true, 2, None) && w.regs[2] == W.Registration(0, true, false, true)
    requires w.regs[0] == W.Registration(0, true, false, true) && w.regs[1] == W.Registration(0, false, false, true)
    ensures Stuck(w, 0, 2) && NoneWoken(w, 0)
  {
    var v := Shown(w, 0);
    assert v.slots == [W.Slot([1, 2], 1, 0)];
    assert [1, 2][1] == 2;
    ShapeSlot(v);
    forall id | id in v.regs ensures W.RegOk(v, id) { assert id in {0, 1, 2}; }
    forall id | id in v.entries ensures W.EntryOk(v, id) { assert id in {0, 1, 2}; }
  }

  lemma ShapeSlot(v: W.State)
    requires v.slots == [W.Slot([1, 2], 1, 0)] && v.entries.Keys == {0, 1, 2} && v.regs.Keys == {0, 1, 2}
    requires v.entries[1].state == W.REVOKED && v.entries[2].state == W.LIVE
    requires v.regs[2] == W.Registration(0, true, false, true)
    ensures W.SlotOk(v, 0)
  {
    var q := v.slots[0].queue;
    assert q == [1, 2] && 2 in q;
    assert W.LiveIn(v.entries, q) == {2};
  }

  /** No thread is at work any more, one waiter is live, registered, queued and counted, and
      the head of its order says there is none. That is a stuck order: from here on no run of
      whole operations that leaves the waiter registered wakes it (`StuckOrder.StuckForever`). */
  lemma WaiterStaysHidden() returns (es: seq<Event>)
    ensures var s := Run(Init(1), es);
            && (forall t: nat :: s.At(t) == Idle)
            && LiveEntry(s, 2) && 2 in s.regs && s.regs[2].registered
            && |s.slots| == 1 && 2 in s.slots[0].queue && s.slots[0].count == 1
            && s.slots[0].head == W.NO_WAITERS_TIMESTAMP
            && Stuck(Whole(s, 3), 0, 2) && NoneWoken(Whole(s, 3), 0)
  {
    hide Run, Init, Whole, Stuck, NoneWoken;
    var cur;
    es, cur := RevokeEnds();
    assert cur.slots[0].queue[1] == 2;
    forall t: nat ensures cur.At(t) == Idle { if t in cur.threads { assert t in {1, 2, 3}; } }
    EndIsStuck(cur);
  }
}
