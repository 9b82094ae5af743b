/** What a script of operations does to a buffer (src/buffer.rs, src/handle.rs), read off the
    script itself: which bytes it holds, whether it has spilled, and when its block goes back.
 */
module BufferLives {
  import opened BuddyArenas
  import opened Buffers

  // ----- counting operations

  function Clones(ops: seq<Op>): nat
  {
    if ops == [] then 0 else Clones(ops[..|ops| - 1]) + if ops[|ops| - 1].Clone? then 1 else 0
  }

  function Drops(ops: seq<Op>): nat
  {
    if ops == [] then 0 else Drops(ops[..|ops| - 1]) + if ops[|ops| - 1].Drop? then 1 else 0
  }

  /** The bytes of all puts of a script, in order. */
  function AllPuts(ops: seq<Op>): seq<Byte>
  {
    if ops == [] then [] else AllPuts(ops[..|ops| - 1]) + if ops[|ops| - 1].Put? then ops[|ops| - 1].data else []
  }

  /** The script neither freezes nor drops the buffer. */
  predicate OnlyWrites(ops: seq<Op>)
  {
    forall k :: 0 <= k < |ops| ==> !ops[k].Freeze? && !ops[k].Drop?
  }

  /** At some point the handles dropped were as many as the frozen bytes ever had. */
  ghost predicate AllDropped(ops: seq<Op>)
  {
    exists m :: 0 <= m <= |ops| && Drops(ops[..m]) >= Clones(ops[..m]) + 1
  }

  lemma DroppedSnoc(ops: seq<Op>, op: Op)
    ensures AllDropped(ops + [op]) <==> AllDropped(ops) || Drops(ops + [op]) >= Clones(ops + [op]) + 1
  {
    var all := ops + [op];
    if AllDropped(ops) {
      var m :| 0 <= m <= |ops| && Drops(ops[..m]) >= Clones(ops[..m]) + 1;
      assert all[..m] == ops[..m];
    }
    assert all[..|all|] == all;
    if AllDropped(all) {
      var m :| 0 <= m <= |all| && Drops(all[..m]) >= Clones(all[..m]) + 1;
      if m < |all| { assert all[..m] == ops[..m]; }
    }
  }

  // ----- when the block goes back

  lemma {:induction false} StillWriting(c: Limits, ops: seq<Op>)
    requires OnlyWrites(ops)
    ensures Lived(c, ops).phase.Writing?
  {
    if ops != [] { StillWriting(c, ops[..|ops| - 1]); }
  }

  /** A buffer dropped while it is being written is gone at once, and stays gone. */
  lemma {:induction false} DroppedUnfrozen(c: Limits, before: seq<Op>, after: seq<Op>)
    requires OnlyWrites(before)
    ensures var v, w := Lived(c, before + [Drop] + after), Lived(c, before);
            v.phase.Gone? && v.contents == w.contents && v.onHeap == w.onHeap && v.releases == 1
  {
    var ops := before + [Drop] + after;
    EveryLife(c, ops);
    if after == [] {
      assert ops == before + [Drop];
      StillWriting(c, before);
      LivedSnoc(c, before, Drop);
    } else {
      var init := after[..|after| - 1];
      DroppedUnfrozen(c, before, init);
      assert ops == before + [Drop] + init + [after[|after| - 1]];
      LivedSnoc(c, before + [Drop] + init, after[|after| - 1]);
    }
  }

  /** From the operations alone: frozen bytes are gone if and only if at some point the drops
      since the freeze exceeded the clones by one. Until then the handles are one more than
      the clones less the drops. The bytes never change after the freeze. */
  lemma {:induction false} FrozenByCounts(c: Limits, before: seq<Op>, after: seq<Op>)
    requires OnlyWrites(before)
    ensures var v, w := Lived(c, before + [Freeze] + after), Lived(c, before);
            && (v.phase.Gone? <==> AllDropped(after))
            && (!v.phase.Gone? ==> Drops(after) <= Clones(after) && v.phase == Frozen(1 + Clones(after) - Drops(after)))
            && v.contents == w.contents && v.onHeap == w.onHeap
  {
    hide Lived;
    var ops := before + [Freeze] + after;
    if after == [] {
      assert ops == before + [Freeze];
      StillWriting(c, before);
      LivedSnoc(c, before, Freeze);
    } else {
      var init, op := after[..|after| - 1], after[|after| - 1];
      FrozenByCounts(c, before, init);
      assert ops == before + [Freeze] + init + [op] && after == init + [op];
      LivedSnoc(c, before + [Freeze] + init, op);
      DroppedSnoc(init, op);
    }
  }

  /** So a life whose frozen handles are all dropped returns its block exactly once, whether or
      not it has spilled, and one with a handle left returns it exactly if it has spilled. */
  lemma ReturnedByCounts(c: Limits, before: seq<Op>, after: seq<Op>)
    requires OnlyWrites(before)
    ensures var v := Lived(c, before + [Freeze] + after);
            v.releases == if AllDropped(after) || |v.contents| > c.capacity then 1 else 0
  {
    hide Lived, AllDropped;
    FrozenByCounts(c, before, after);
    EveryLife(c, before + [Freeze] + after);
  }

  // ----- what the buffer holds

  /** An auto-spill buffer takes every put as long as they total no more than a length can say,
      and is on the heap exactly when they exceed its capacity. */
  lemma {:induction false} SpillingTakesAll(c: Limits, ops: seq<Op>)
    requires c.autoSpill && OnlyWrites(ops) && |AllPuts(ops)| <= c.usizeMax
    ensures var v := Lived(c, ops);
            v.phase.Writing? && v.contents == AllPuts(ops) && (v.onHeap <==> |AllPuts(ops)| > c.capacity)
  {
    StillWriting(c, ops);
    EveryLife(c, ops);
    if ops != [] { SpillingTakesAll(c, ops[..|ops| - 1]); }
  }

  /** A buffer that may not spill takes a put exactly when it fits beside what is there. */
  lemma FixedTakesWhatFits(c: Limits, ops: seq<Op>, data: seq<Byte>)
    requires !c.autoSpill && OnlyWrites(ops)
    ensures var v := Lived(c, ops);
            Lived(c, ops + [Put(data)])
            == if |v.contents| + |data| <= c.capacity then v.(contents := v.contents + data) else v
  {
    hide Lived;
    StillWriting(c, ops);
    EveryLife(c, ops);
    LivedSnoc(c, ops, Put(data));
  }

  /** The refusals of an auto-spill buffer, which the length of a heap buffer alone causes. */
  lemma SpillingRefusesIff(c: Limits, ops: seq<Op>, data: seq<Byte>)
    requires c.autoSpill && OnlyWrites(ops)
    ensures var v, v' := Lived(c, ops), Lived(c, ops + [Put(data)]);
            && (v'.contents == v.contents || v'.contents == v.contents + data)
            && (v'.contents != v.contents + data <==>
                  data != [] && |data| > if |v.contents| > c.capacity then c.usizeMax - |v.contents| else c.usizeMax)
  {
    hide Lived;
    StillWriting(c, ops);
    EveryLife(c, ops);
    LivedSnoc(c, ops, Put(data));
  }
}
