/** `Buffer` and `BufferHandle` (src/buffer.rs, src/handle.rs) over a buddy arena: a buffer is
    an append-only string of bytes however often it spills, and every life of it returns its
    block to the arena exactly once.

    The heap buffer it spills to comes from the bytes crate; `spare` says how much room it
    offers at each length, and frozen bytes are counted by their handles.
 */
module Buffers {
  import opened Words
  import opened Bitmaps
  import opened Blocks
  import opened FreeMaps
  import opened BuddyArenas

  // ----- the life of a buffer

  datatype Phase = Writing | Frozen(handles: nat) | Gone

  datatype Op = Put(data: seq<Byte>) | Freeze | Clone | Drop

  datatype Limits = Limits(capacity: nat, autoSpill: bool, usizeMax: nat)

  datatype Life = Life(contents: seq<Byte>, phase: Phase, onHeap: bool, releases: nat)

  /** `remaining_mut` (src/buffer.rs:219-228). */
  function Room(c: Limits, v: Life): int
  {
    if v.onHeap then c.usizeMax - |v.contents| else if c.autoSpill then c.usizeMax else c.capacity - |v.contents|
  }

  /** A put that does not fit panics and changes nothing; one that fits appends, and moves
      the buffer to the heap when it outgrows its block. */
  function Step(c: Limits, v: Life, op: Op): Life
  {
    match op
    case Put(data) =>
      if v.phase.Writing? && |data| <= Room(c, v)
      then var all := v.contents + data;
           var spills := !v.onHeap && |all| > c.capacity;
           v.(contents := all, onHeap := v.onHeap || spills, releases := v.releases + if spills then 1 else 0)
      else v
    case Freeze => if v.phase.Writing? then v.(phase := Frozen(1)) else v
    case Clone => if v.phase.Frozen? then v.(phase := Frozen(v.phase.handles + 1)) else v
    case Drop =>
      if v.phase.Frozen? && v.phase.handles > 1 then v.(phase := Frozen(v.phase.handles - 1))
      else if v.phase.Gone? then v
      else v.(phase := Gone, releases := v.releases + if v.onHeap then 0 else 1)
  }

  function Lived(c: Limits, ops: seq<Op>): Life
  {
    if ops == [] then Life([], Writing, false, 0) else Step(c, Lived(c, ops[..|ops| - 1]), ops[|ops| - 1])
  }

  /** The puts that were made while writing and fitted, in order. */
  function Accepted(c: Limits, ops: seq<Op>): seq<seq<Byte>>
  {
    if ops == [] then []
    else
      var v, op := Lived(c, ops[..|ops| - 1]), ops[|ops| - 1];
      Accepted(c, ops[..|ops| - 1]) + if op.Put? && v.phase.Writing? && |op.data| <= Room(c, v) then [op.data] else []
  }

  function Concat(parts: seq<seq<Byte>>): seq<Byte>
  {
    if parts == [] then [] else Concat(parts[..|parts| - 1]) + parts[|parts| - 1]
  }

  /** Over every life: what can be read is the concatenation of the accepted puts, the buffer
      is on the heap exactly when that outgrew its block, which only an auto-spill buffer
      does, and its block has been returned once if it spilled or is gone, else not at all. */
  lemma {:induction false} EveryLife(c: Limits, ops: seq<Op>)
    ensures var v := Lived(c, ops);
            && v.contents == Concat(Accepted(c, ops))
            && (v.onHeap <==> |v.contents| > c.capacity) && (v.onHeap ==> c.autoSpill)
            && v.releases == (if v.onHeap || v.phase.Gone? then 1 else 0)
            && (v.phase.Frozen? ==> v.phase.handles > 0)
  {
    if ops != [] {
      var init, op := ops[..|ops| - 1], ops[|ops| - 1];
      EveryLife(c, init);
      if op.Put? {
        var parts := Accepted(c, init);
        assert (parts + [op.data])[..|parts|] == parts;
        assert parts + [] == parts;
      } else {
        assert Accepted(c, ops) == Accepted(c, init);
      }
    }
  }

  // ----- the buffer itself

  class Buffer {
    const arena: BuddyArena
    const block: Block
    const autoSpill: bool
    const capacity: nat
    const usizeMax: nat
    const spare: nat -> nat
    var len: nat
    var released: bool
    var spilled: Option<seq<Byte>>
    var phase: Phase
    ghost var contents: seq<Byte>
    ghost var releases: nat

    ghost function Limit(): Limits { Limits(capacity, autoSpill, usizeMax) }

    ghost function View(): Life
      reads this
    {
      Life(contents, phase, spilled.Some?, releases)
    }

    function Start(): nat { Offset(arena.minBlock, block) }

    ghost predicate Fixed()
    {
      && this !in arena.Repr() && Inside(block, Top(arena.maxOrder)) && capacity <= BlockSize(arena.minBlock, block)
      && Start() + BlockSize(arena.minBlock, block) <= arena.mem.Length
    }

    /** The block is held, and the bytes are in it, until the buffer spills or is gone. */
    ghost predicate Holding()
      reads this
    {
      spilled.None? && !phase.Gone?
    }

    ghost predicate Stored()
      requires Fixed()
      reads this, arena`live, arena.mem
    {
      && (Holding() ==>
            block in arena.live && len == |contents| <= capacity && contents == arena.mem[Start()..Start() + len])
      && (spilled.Some? ==> contents == spilled.value && autoSpill && |contents| >= capacity)
      && (released <==> spilled.Some?)
      && (phase.Frozen? ==> phase.handles > 0)
    }

    ghost predicate Valid()
      reads this, arena.Repr()
    {
      Fixed() && arena.Valid() && Stored() && (spilled.Some? ==> |contents| > capacity)
    }

    /** `Buffer::new_buddy` (src/buffer.rs:56-76) for a block just granted. */
    constructor (arena: BuddyArena, block: Block, autoSpill: bool, capacity: nat, usizeMax: nat, spare: nat -> nat)
      requires arena.Valid() && block in arena.live && capacity <= BlockSize(arena.minBlock, block)
      ensures Valid() && View() == Life([], Writing, false, 0)
      ensures this.arena == arena && this.block == block && Limit() == Limits(capacity, autoSpill, usizeMax)
    {
      hide BuddyArena.Valid, Offset, BlockSize, Inside;
      this.arena, this.block, this.autoSpill := arena, block, autoSpill;
      this.capacity, this.usizeMax, this.spare := capacity, usizeMax, spare;
      len, released, spilled, phase, contents, releases := 0, false, None, Writing, [], 0;
      new;
      BlockInBounds(arena, block);
    }

    /** Frees recorded by the arena and blocks it has out, after `n` more returns of this one. */
    twostate predicate Returned(n: int)
      reads arena
    {
      arena.frees == old(arena.frees) + n && arena.live == if n == 0 then old(arena.live) else old(arena.live) - {block}
    }

    twostate predicate OutsideKept()
      reads arena.mem
    {
      forall j :: 0 <= j < arena.mem.Length && !arena.InBlock(j, block) ==> arena.mem[j] == old(arena.mem[j])
    }

    /** `do_spill` (src/buffer.rs:179-192): copy, then return the block. */
    method DoSpill()
      requires Fixed() && arena.Valid() && Stored() && Holding() && phase.Writing? && autoSpill && len >= capacity
      modifies this`released, this`spilled, this`releases, arena.Repr()
      ensures arena.Valid() && Stored() && spilled.Some? && releases == old(releases) + 1
      ensures Returned(1) && OutsideKept()
    {
      hide BuddyArena.Valid;
      var buffer := arena.mem[Start()..Start() + len];
      var h := arena.Release(block);
      releases := releases + 1;
      released := true;
      spilled := Some(buffer);
    }

    /** `chunk_mut` (src/buffer.rs:246-258): how many bytes may be written next. */
    method ChunkMut() returns (room: nat)
      requires Fixed() && arena.Valid() && Stored() && phase.Writing?
      modifies this`released, this`spilled, this`releases, arena.Repr()
      ensures arena.Valid() && Stored() && OutsideKept()
      ensures spilled.Some? <==> old(spilled.Some?) || (autoSpill && len >= capacity)
      ensures var n := if spilled.Some? && old(spilled.None?) then 1 else 0;
              Returned(n) && releases == old(releases) + n
      ensures if spilled.Some? then room > 0 else room == capacity - len
      ensures old(spilled.Some?) ==> arena.mem[..] == old(arena.mem[..])
    {
      hide BuddyArena.Valid;
      if spilled.None? && autoSpill && len >= capacity { DoSpill(); }
      if spilled.Some? {
        var n := |spilled.value|;
        room := if spare(n) > 0 then spare(n) else 64;
      } else {
        room := capacity - len;
      }
    }

    /** Bytes copied into the chunk, then `advance_mut` (src/buffer.rs:230-244). */
    method Append(part: seq<Byte>)
      requires Fixed() && arena.Valid() && Stored() && phase.Writing? && (spilled.None? ==> len + |part| <= capacity)
      modifies this`len, this`spilled, this`contents, arena.mem
      ensures arena.Valid() && Stored() && OutsideKept()
      ensures contents == old(contents) + part && spilled.Some? == old(spilled.Some?)
      ensures old(spilled.Some?) ==> arena.mem[..] == old(arena.mem[..])
    {
      hide BuddyArena.Valid;
      if spilled.Some? {
        spilled := Some(spilled.value + part);
      } else {
        WriteAll(part);
        len := len + |part|;
      }
      contents := contents + part;
    }

    method WriteAll(part: seq<Byte>)
      requires Fixed() && arena.Valid() && Stored() && Holding() && len + |part| <= capacity
      modifies arena.mem
      ensures arena.Valid() && OutsideKept()
      ensures arena.mem[Start()..Start() + len + |part|] == contents + part
    {
      hide BuddyArena.Valid, Offset, BlockSize;
      var i := 0;
      while i < |part|
        invariant 0 <= i <= |part| && arena.Valid() && OutsideKept()
        invariant arena.mem[Start()..Start() + len + i] == contents + part[..i]
      {
        ghost var before := arena.mem[..];
        arena.WriteByte(block, len + i, part[i]);
        Extended(before, arena.mem[..], Start(), len + i, part[i]);
        assert part[..i + 1] == part[..i] + [part[i]];
        assert arena.mem[..][Start()..Start() + len + i + 1] == arena.mem[Start()..Start() + len + i + 1];
        assert before[Start()..Start() + len + i] == contents + part[..i];
        i := i + 1;
      }
      assert part[..i] == part;
    }

    /** `remaining_mut` (src/buffer.rs:219-228). */
    function RemainingMut(): (r: int)
      requires Fixed() && Stored() && phase.Writing?
      reads this, arena`live, arena.mem
      ensures r == Room(Limit(), View())
      ensures !autoSpill ==> r == capacity - |contents|
      ensures autoSpill ==> r == if spilled.Some? then usizeMax - |contents| else usizeMax
    {
      if spilled.Some? then usizeMax - |spilled.value| else if autoSpill then usizeMax else capacity - len
    }

    /** `put_slice` over `chunk_mut` and `advance_mut` (src/buffer.rs:219-258); a put that does
        not fit panics, reported as `false`. */
    method PutSlice(data: seq<Byte>) returns (ok: bool)
      requires Valid() && phase.Writing?
      modifies this, arena.Repr()
      ensures Valid() && View() == Step(Limit(), old(View()), Put(data))
      ensures ok <==> |data| <= Room(Limit(), old(View()))
      ensures !autoSpill ==> (ok <==> |old(contents)| + |data| <= capacity)
      ensures autoSpill && |old(contents)| + |data| <= usizeMax ==> ok
      ensures ok ==> contents == old(contents) + data && (spilled.Some? <==> |contents| > capacity)
      ensures Returned(releases - old(releases)) && OutsideKept()
      ensures old(spilled.Some?) ==> arena.mem[..] == old(arena.mem[..])
    {
      hide BuddyArena.Valid, Offset, BlockSize, Inside, Step, Stored, Fixed;
      PutStep(Limit(), View(), data);
      ghost var before := View();
      if RemainingMut() < |data| { return false; }
      ok := true;
      PutAll(data);
      assert View() == Step(Limit(), before, Put(data));
    }

    /** The loop of `put_slice`, for data that fits. */
    method PutAll(data: seq<Byte>)
      requires Valid() && phase.Writing? && |data| <= Room(Limit(), View())
      modifies this, arena.Repr()
      ensures Valid() && View() == Step(Limit(), old(View()), Put(data))
      ensures contents == old(contents) + data && (spilled.Some? <==> |contents| > capacity)
      ensures Returned(releases - old(releases)) && OutsideKept()
      ensures old(spilled.Some?) ==> arena.mem[..] == old(arena.mem[..])
    {
      hide BuddyArena.Valid, Offset, BlockSize, Inside, Step;
      PutStep(Limit(), View(), data);
      var at := 0;
      while at < |data|
        invariant 0 <= at <= |data| && arena.Valid() && Stored() && phase.Writing? && OutsideKept()
        invariant contents == old(contents) + data[..at]
        invariant spilled.Some? ==> |contents| > capacity
        invariant spilled.None? ==> old(spilled.None?)
        invariant !autoSpill ==> len + (|data| - at) <= capacity
        invariant Moved(old(spilled), old(releases))
        invariant old(spilled.Some?) ==> spilled.Some? && arena.mem[..] == old(arena.mem[..])
      {
        var cnt := PutChunk(data[at..]);
        assert data[at..][..cnt] == data[at..at + cnt];
        assert data[..at + cnt] == data[..at] + data[at..at + cnt];
        at := at + cnt;
      }
      assert data[..at] == data;
    }

    /** The block was returned in the meantime exactly if the buffer was not on the heap then
        and is now. */
    twostate predicate Moved(before: Option<seq<Byte>>, releasesBefore: nat)
      reads this, arena
    {
      var n := if spilled.Some? && before.None? then 1 else 0;
      Returned(n) && releases == releasesBefore + n
    }

    /** One turn of the `put_slice` loop. */
    method PutChunk(src: seq<Byte>) returns (cnt: nat)
      requires Fixed() && arena.Valid() && Stored() && phase.Writing? && src != []
      requires (spilled.Some? ==> |contents| > capacity) && (!autoSpill ==> len + |src| <= capacity)
      modifies this`len, this`released, this`spilled, this`contents, this`releases, arena.Repr()
      ensures arena.Valid() && Stored() && OutsideKept()
      ensures 0 < cnt <= |src| && contents == old(contents) + src[..cnt]
      ensures (spilled.Some? ==> |contents| > capacity) && (!autoSpill ==> len + |src| - cnt <= capacity)
      ensures (old(spilled.Some?) ==> spilled.Some?) && Moved(old(spilled), old(releases))
      ensures old(spilled.Some?) ==> arena.mem[..] == old(arena.mem[..])
    {
      hide BuddyArena.Valid, Offset, BlockSize, Inside;
      var room := ChunkMut();
      cnt := if |src| < room then |src| else room;
      Append(src[..cnt]);
    }

    /** `try_put_slice` (src/buffer.rs:107-117). */
    method TryPutSlice(data: seq<Byte>) returns (full: Option<(int, nat)>)
      requires Valid() && phase.Writing?
      modifies this, arena.Repr()
      ensures Valid() && View() == Step(Limit(), old(View()), Put(data))
      ensures full == if |data| <= Room(Limit(), old(View())) then None else Some((Room(Limit(), old(View())), |data|))
      ensures !autoSpill ==> (full.Some? <==> |old(contents)| + |data| > capacity)
      ensures autoSpill && |old(contents)| + |data| <= usizeMax ==> full.None?
      ensures contents == if full.None? then old(contents) + data else old(contents)
      ensures Returned(releases - old(releases)) && OutsideKept()
    {
      hide BuddyArena.Valid, Offset, BlockSize, Inside;
      var remaining := RemainingMut();
      if remaining < |data| { return Some((remaining, |data|)); }
      var ok := PutSlice(data);
      full := None;
    }

    /** `freeze` (src/buffer.rs:153-170): the bytes read through every handle are `contents`. */
    method FreezeBytes() returns (bytes: seq<Byte>)
      requires Valid() && phase.Writing?
      modifies this`phase
      ensures Valid() && View() == Step(Limit(), old(View()), Freeze) && bytes == contents
    {
      hide BuddyArena.Valid, Offset, BlockSize, Inside;
      bytes := if spilled.Some? then spilled.value else arena.mem[Start()..Start() + len];
      phase := Frozen(1);
    }

    method CloneHandle()
      requires Valid() && phase.Frozen?
      modifies this`phase
      ensures Valid() && View() == Step(Limit(), old(View()), Clone)
    {
      hide BuddyArena.Valid, Offset, BlockSize, Inside;
      phase := Frozen(phase.handles + 1);
    }

    /** Dropping the buffer (src/buffer.rs:206-214) or one handle; the last handle on arena
        memory returns the block (src/handle.rs:43-47). */
    method DropOne()
      requires Valid() && !phase.Gone?
      modifies this`phase, this`releases, arena.Repr()
      ensures Valid() && View() == Step(Limit(), old(View()), Drop)
      ensures Returned(releases - old(releases)) && OutsideKept()
      ensures old(spilled.Some?) ==> arena.mem[..] == old(arena.mem[..])
    {
      hide BuddyArena.Valid, Offset, BlockSize, Inside;
      if phase.Frozen? && phase.handles > 1 {
        phase := Frozen(phase.handles - 1);
        return;
      }
      phase := Gone;
      if !released {
        var h := arena.Release(block);
        releases := releases + 1;
      }
    }

    /** One operation of a life; one that the phase does not allow changes nothing, and one on a
        buffer that holds no block leaves the arena alone. */
    method Perform(op: Op)
      requires Valid()
      modifies this, arena.Repr()
      ensures Valid() && View() == Step(Limit(), old(View()), op)
      ensures Returned(releases - old(releases)) && OutsideKept()
      ensures old(!Holding()) ==> releases == old(releases) && arena.mem[..] == old(arena.mem[..])
    {
      hide BuddyArena.Valid, Offset, BlockSize, Inside, Step;
      Idle(Limit(), View(), op);
      if !Holding() { LetGo(Limit(), View(), op); }
      if op.Put? && phase.Writing? {
        var ok := PutSlice(op.data);
      } else if op.Freeze? && phase.Writing? {
        var bytes := FreezeBytes();
      } else if op.Clone? && phase.Frozen? {
        CloneHandle();
      } else if op.Drop? && !phase.Gone? {
        DropOne();
      }
    }

    /** Any life: the arena records one free for this buffer exactly when it has spilled or is
        gone, and nobody else's bytes or blocks are touched. */
    method Live(ops: seq<Op>)
      requires Valid() && View() == Life([], Writing, false, 0)
      modifies this, arena.Repr()
      ensures Valid() && View() == Lived(Limit(), ops) && OutsideKept()
      ensures Returned(if spilled.Some? || phase.Gone? then 1 else 0)
    {
      hide BuddyArena.Valid, Offset, BlockSize, Inside, Step, Lived;
      var i := 0;
      LivedStep(Limit(), ops, 0);
      while i < |ops|
        invariant 0 <= i <= |ops| && Valid() && View() == Lived(Limit(), ops[..i])
        invariant OutsideKept() && Returned(releases)
      {
        LivedStep(Limit(), ops, i);
        EveryLife(Limit(), ops[..i]);
        EveryLife(Limit(), ops[..i + 1]);
        Perform(ops[i]);
        i := i + 1;
      }
      assert ops[..i] == ops;
      EveryLife(Limit(), ops);
    }
  }

  lemma PutStep(c: Limits, v: Life, data: seq<Byte>)
    requires v.phase.Writing?
    ensures var all := v.contents + data;
            var spills := !v.onHeap && |all| > c.capacity;
            Step(c, v, Put(data)) == if |data| <= Room(c, v)
                                     then Life(all, Writing, v.onHeap || spills, v.releases + if spills then 1 else 0)
                                     else v
  {
  }

  lemma LivedSnoc(c: Limits, ops: seq<Op>, op: Op)
    ensures Lived(c, ops + [op]) == Step(c, Lived(c, ops), op)
  {
    assert (ops + [op])[..|ops|] == ops;
  }

  lemma LivedStep(c: Limits, ops: seq<Op>, i: nat)
    requires i <= |ops|
    ensures i < |ops| ==> Lived(c, ops[..i + 1]) == Step(c, Lived(c, ops[..i]), ops[i])
    ensures Lived(c, ops[..0]) == Life([], Writing, false, 0)
  {
    if i < |ops| { assert ops[..i + 1][..i] == ops[..i]; }
  }

  /** An operation on a buffer in the wrong phase cannot be written; it changes nothing. */
  lemma Idle(c: Limits, v: Life, op: Op)
    ensures (op.Put? || op.Freeze?) && !v.phase.Writing? ==> Step(c, v, op) == v
    ensures op.Clone? && !v.phase.Frozen? ==> Step(c, v, op) == v
    ensures op.Drop? && v.phase.Gone? ==> Step(c, v, op) == v
  {
  }

  /** The buffer still has its block. */
  predicate Holds(v: Life) { !v.onHeap && !v.phase.Gone? }

  /** An operation returns the block exactly when the buffer has it before and not after. */
  lemma ReturnsOnce(c: Limits, v: Life, op: Op)
    ensures var v' := Step(c, v, op); v'.releases == v.releases + if Holds(v) && !Holds(v') then 1 else 0
  {
  }

  /** A block that was let go is not held again, and not returned again. */
  lemma LetGo(c: Limits, v: Life, op: Op)
    requires v.onHeap || v.phase.Gone?
    ensures var v' := Step(c, v, op); (v'.onHeap || v'.phase.Gone?) && v'.releases == v.releases
  {
  }

  lemma Extended(s: seq<Byte>, s': seq<Byte>, start: nat, n: nat, v: Byte)
    requires start + n < |s| && s' == s[start + n := v]
    ensures s'[start..start + n + 1] == s[start..start + n] + [v]
  {
  }

  lemma LiveInside(maxOrder: nat, live: set<Block>, free: set<Block>, net: int, x: Block)
    requires Books(maxOrder, live, free, net) && x in live
    ensures Inside(x, Top(maxOrder))
  {
  }

  lemma BlockInBounds(arena: BuddyArena, x: Block)
    requires arena.Valid() && x in arena.live
    ensures Inside(x, Top(arena.maxOrder))
    ensures Offset(arena.minBlock, x) + BlockSize(arena.minBlock, x) <= arena.mem.Length
  {
    hide Books, SummaryExact, OrderMaps.Valid, OrderMaps.Shape, Pow2, Units;
    hide Inside, Offset, BlockSize, Scrubbed, Bitmap.Valid;
    LiveInside(arena.maxOrder, arena.live, arena.maps.free, arena.splits - arena.coalesces, x);
    BytesFit(arena.minBlock, arena.maxOrder, x);
    Pow2Add(arena.minExp, arena.maxOrder);
  }

  // ----- bytes of different blocks

  /** No byte belongs to two live blocks. */
  lemma BytesApart(p: nat, x: Block, y: Block, j: nat)
    requires p > 0 && !Overlap(x, y)
    requires Offset(p, y) <= j < Offset(p, y) + BlockSize(p, y)
    ensures !(Offset(p, x) <= j < Offset(p, x) + BlockSize(p, x))
  {
    hide Offset, BlockSize, Inside;
    if Offset(p, x) <= j < Offset(p, x) + BlockSize(p, x) {
      var u := ByteUnit(p, x, j);
      var v := ByteUnit(p, y, j);
      SameUnit(p, j, u, v);
      Laminar(Block(0, u), x, y);
      assert false;
    }
  }

  lemma SameUnit(p: nat, j: nat, u: nat, v: nat)
    requires p > 0 && u * p <= j < u * p + p && v * p <= j < v * p + p
    ensures u == v
  {
    if u < v { MulGap(u, v, p); } else if v < u { MulGap(v, u, p); }
  }
}
