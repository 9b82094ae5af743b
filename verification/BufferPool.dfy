/** Any number of buffers over one buddy arena (src/buffer.rs, src/buddy.rs:187-239): allocating,
    writing, spilling, freezing and dropping in any order, each buffer keeps its own bytes.
 */
module BufferPools {
  import opened Words
  import opened Bitmaps
  import opened Geometry
  import opened Blocks
  import opened FreeMaps
  import opened BuddyArenas
  import opened Buffers

  /** All buffers belong to the arena, and those that hold a block hold different ones. */
  ghost predicate Pool(arena: BuddyArena, bs: set<Buffer>)
    reads arena.Repr(), bs
  {
    && arena.Valid()
    && (forall b :: b in bs ==> b.arena == arena && b.Valid())
    && (forall a, b :: a in bs && b in bs && a != b && a.Holding() && b.Holding() ==> a.block != b.block)
  }

  /** What a buffer needs of the bytes `mem` to be valid over them. */
  ghost predicate ReadsFrom(b: Buffer, mem: seq<Byte>)
    requires b.Fixed()
    reads b
  {
    && |mem| == b.arena.mem.Length
    && (b.Holding() ==> b.len == |b.contents| <= b.capacity && b.contents == mem[b.Start()..b.Start() + b.len])
    && (b.spilled.Some? ==> b.contents == b.spilled.value && b.autoSpill && |b.contents| > b.capacity)
    && (b.released <==> b.spilled.Some?)
    && (b.phase.Frozen? ==> b.phase.handles > 0)
  }

  lemma ValidReads(b: Buffer)
    requires b.Valid()
    ensures ReadsFrom(b, b.arena.mem[..])
  {
    hide BuddyArena.Valid, Offset, BlockSize, Inside;
    assert b.Holding() ==> b.arena.mem[..][b.Start()..b.Start() + b.len] == b.arena.mem[b.Start()..b.Start() + b.len];
  }

  /** Bytes that changed only in a block disjoint from its own leave a buffer valid. */
  lemma StillValid(b: Buffer, before: seq<Byte>, x: Block)
    requires b.Fixed() && b.arena.Valid() && ReadsFrom(b, before)
    requires forall j :: 0 <= j < |before| && !b.arena.InBlock(j, x) ==> b.arena.mem[j] == before[j]
    requires b.Holding() ==> b.block in b.arena.live && !Overlap(x, b.block)
    ensures b.Valid()
  {
    hide BuddyArena.Valid, Offset, BlockSize, Inside;
    if b.Holding() {
      MinBlockPositive(b.arena);
      forall j: nat | b.arena.InBlock(j, b.block) ensures !b.arena.InBlock(j, x) {
        BytesApart(b.arena.minBlock, x, b.block, j);
      }
      assert b.arena.mem[b.Start()..b.Start() + b.len] == before[b.Start()..b.Start() + b.len];
    }
  }

  lemma MinBlockPositive(arena: BuddyArena)
    requires arena.Valid()
    ensures arena.minBlock > 0
  {
    hide Books, SummaryExact, OrderMaps.Valid, OrderMaps.Shape, Units, Scrubbed, Bitmap.Valid;
  }

  lemma LiveDisjoint(arena: BuddyArena, x: Block, y: Block)
    requires arena.Valid() && x in arena.live && y in arena.live && x != y
    ensures !Overlap(x, y)
  {
    hide SummaryExact, OrderMaps.Valid, OrderMaps.Shape, Pow2, Units, Canonical, Scrubbed, Bitmap.Valid, Overlap;
  }

  lemma PoolMember(arena: BuddyArena, bs: set<Buffer>, b: Buffer)
    requires Pool(arena, bs) && b in bs
    ensures b.arena == arena && b.Valid() && b.Fixed() && arena.Valid() && (b.Holding() ==> b.block in arena.live)
    ensures forall a :: a in bs && a != b && a.Holding() && b.Holding() ==> a.block != b.block
  {
    hide BuddyArena.Valid, Offset, BlockSize, Inside;
  }

  /** The request fits the arena, and some aligned block of its order avoids every live one. */
  ghost predicate Servable(arena: BuddyArena, live: set<Block>, len: nat)
  {
    && len <= Pow2(arena.minExp + arena.maxOrder)
    && Fits(Top(arena.maxOrder), live, RequestOrder(arena.minExp, len))
  }

  lemma HalfAbove(arena: BuddyArena)
    requires arena.Valid()
    ensures arena.bits > 0 && Pow2(arena.minExp + arena.maxOrder) <= Pow2(arena.bits - 1)
  {
    hide Books, SummaryExact, OrderMaps.Valid, OrderMaps.Shape, Units, Scrubbed, Bitmap.Valid, Pow2;
    Pow2Monotone(arena.minExp + arena.maxOrder, arena.bits - 1);
  }

  /** `allocate` (src/buddy.rs:187-239) beside any number of buffers. */
  method Allocate(arena: BuddyArena, ghost bs: set<Buffer>, len: nat) returns (r: AllocResult)
    requires Pool(arena, bs) && 0 < len < Pow2(arena.bits)
    modifies arena.Repr()
    ensures Pool(arena, bs) && (forall b :: b in bs ==> b.View() == old(b.View()))
    ensures r.Allocated? ==> r.block in arena.live && len <= r.capacity <= BlockSize(arena.minBlock, r.block)
    ensures r.Allocated? <==> Servable(arena, old(arena.live), len)
    ensures if r.Allocated? then r.block !in old(arena.live) && arena.live == old(arena.live) + {r.block}
            else arena.live == old(arena.live)
    ensures r.Allocated? ==> forall b :: b in bs && b.Holding() ==> b.block != r.block
  {
    hide BuddyArena.Valid, Buffer.Stored, Offset, BlockSize, Inside;
    hide ReadsFrom, Pow2, LeastOrder, Fits, BuddyArena.Served;
    ghost var before := arena.mem[..];
    forall b | b in bs ensures b.Fixed() && ReadsFrom(b, before) && (b.Holding() ==> b.block in arena.live) {
      PoolMember(arena, bs, b);
      ValidReads(b);
    }
    HalfAbove(arena);
    r := arena.Allocate(len);
    if r.Allocated? { BlockHolds(arena, len, r.block); }
    forall b | b in bs ensures b.Valid() {
      if r.Allocated? {
        if b.Holding() { LiveDisjoint(arena, r.block, b.block); }
        StillValid(b, before, r.block);
      } else {
        Untouched(b, before);
      }
    }
  }

  lemma BlockHolds(arena: BuddyArena, len: nat, x: Block)
    requires arena.Valid() && LeastOrder(arena.minExp, len, x.order)
    ensures len <= BlockSize(arena.minBlock, x)
  {
    hide Books, SummaryExact, OrderMaps.Valid, OrderMaps.Shape, Units, Scrubbed, Bitmap.Valid, Pow2;
    Pow2Add(arena.minExp, x.order);
  }

  lemma Untouched(b: Buffer, before: seq<Byte>)
    requires b.Fixed() && b.arena.Valid() && ReadsFrom(b, before) && b.arena.mem[..] == before
    requires b.Holding() ==> b.block in b.arena.live
    ensures b.Valid()
  {
    hide BuddyArena.Valid, Offset, BlockSize, Inside;
    assert b.Holding() ==> b.arena.mem[b.Start()..b.Start() + b.len] == before[b.Start()..b.Start() + b.len];
  }

  /** One operation on one buffer beside the others, spills and returns included. */
  method Perform(arena: BuddyArena, ghost bs: set<Buffer>, b: Buffer, op: Op)
    requires Pool(arena, bs) && b in bs
    modifies b, arena.Repr()
    ensures Pool(arena, bs) && b.View() == Step(b.Limit(), old(b.View()), op)
    ensures forall a :: a in bs && a != b ==> a.View() == old(a.View())
    ensures arena.live == if old(b.Holding()) && !b.Holding() then old(arena.live) - {b.block} else old(arena.live)
  {
    hide BuddyArena.Valid, Buffer.Stored, Offset, BlockSize, Inside, ReadsFrom, Step, Overlap;
    ReturnsOnce(b.Limit(), b.View(), op);
    ghost var before := arena.mem[..];
    forall a | a in bs && a != b
      ensures a.Fixed() && a.arena == arena && ReadsFrom(a, before) && (a.Holding() ==> a.block in arena.live)
      ensures a.Holding() && b.Holding() ==> !Overlap(b.block, a.block)
    {
      PoolMember(arena, bs, a);
      PoolMember(arena, bs, b);
      ValidReads(a);
      if a.Holding() && b.Holding() { LiveDisjoint(arena, b.block, a.block); }
    }
    ghost var held := b.Holding();
    if !held { LetGo(b.Limit(), b.View(), op); }
    b.Perform(op);
    forall a | a in bs && a != b ensures a.Valid() {
      if held { StillValid(a, before, b.block); } else { Untouched(a, before); }
    }
  }

  // ----- whole sessions

  /** Ask for a buffer, or operate on the `i`th one that was granted. */
  datatype Cmd = Open(len: nat) | Do(i: nat, op: Op)

  /** The operations a script addresses to buffer `i`. */
  function OpsFor(script: seq<Cmd>, i: nat): seq<Op>
  {
    if script == [] then []
    else
      var cmd := script[|script| - 1];
      OpsFor(script[..|script| - 1], i) + if cmd.Do? && cmd.i == i then [cmd.op] else []
  }

  lemma OpsForSnoc(script: seq<Cmd>, from: nat, k: nat, i: nat)
    requires from <= k < |script|
    ensures OpsFor(script[from..k + 1], i)
            == OpsFor(script[from..k], i) + if script[k].Do? && script[k].i == i then [script[k].op] else []
  {
    assert script[from..k + 1][..k - from] == script[from..k];
  }

  /** Buffer `i`, granted at command `from` with room for what was asked, is where its own
      operations up to command `k` lead. */
  ghost predicate OnTrack(b: Buffer, script: seq<Cmd>, from: nat, k: nat, i: nat)
    reads b
  {
    from < k <= |script| && script[from].Open? && b.capacity >= script[from].len
      && b.View() == Lived(b.Limit(), OpsFor(script[from + 1..k], i))
  }

  lemma StaysOnTrack(b: Buffer, script: seq<Cmd>, from: nat, k: nat, i: nat)
    requires OnTrack(b, script, from, k, i) && k < |script| && !(script[k].Do? && script[k].i == i)
    ensures OnTrack(b, script, from, k + 1, i)
  {
    hide Buffer.View, Buffer.Limit, Lived, OpsFor;
    OpsForSnoc(script, from + 1, k, i);
    assert OpsFor(script[from + 1..k], i) + [] == OpsFor(script[from + 1..k], i);
  }

  ghost function Members(bufs: seq<Buffer>): set<Buffer>
  {
    set b | b in bufs
  }

  lemma EmptyPool(arena: BuddyArena)
    requires arena.Valid()
    ensures Pool(arena, Members([]))
  {
  }

  /** A new buffer on a block nobody holds joins the pool. */
  lemma Joins(arena: BuddyArena, bufs: seq<Buffer>, b: Buffer)
    requires Pool(arena, Members(bufs)) && b.arena == arena && b.Valid()
    requires forall a :: a in bufs && a.Holding() ==> a.block != b.block
    ensures Pool(arena, Members(bufs + [b]))
  {
    hide BuddyArena.Valid, Buffer.Valid;
    assert Members(bufs + [b]) == Members(bufs) + {b};
  }

  /** Allocation of a buffer (src/buddy.rs:187-239) beside those already granted. */
  method Grant(arena: BuddyArena, bufs: seq<Buffer>, len: nat, autoSpill: bool, usizeMax: nat, spare: nat -> nat)
    returns (b: Option<Buffer>)
    requires Pool(arena, Members(bufs)) && 0 < len < Pow2(arena.bits)
    modifies arena.Repr()
    ensures Pool(arena, Members(bufs)) && (forall a :: a in bufs ==> a.View() == old(a.View()))
    ensures b.Some? ==>
      fresh(b.value) && Pool(arena, Members(bufs + [b.value])) && b.value.View() == Life([], Writing, false, 0)
    ensures b.Some? ==> b.value.capacity >= len && b.value.autoSpill == autoSpill
    ensures b.Some? <==> Servable(arena, old(arena.live), len)
    ensures if b.Some? then b.value.block !in old(arena.live) && arena.live == old(arena.live) + {b.value.block}
            else arena.live == old(arena.live)
  {
    hide BuddyArena.Valid, Pool, Buffer.Valid, Offset, BlockSize, Inside, Pow2, Servable;
    var r := Allocate(arena, Members(bufs), len);
    b := None;
    if r.Allocated? {
      PoolArena(arena, Members(bufs));
      var x := new Buffer(arena, r.block, autoSpill, r.capacity, usizeMax, spare);
      Joins(arena, bufs, x);
      b := Some(x);
    }
  }

  lemma PoolArena(arena: BuddyArena, bs: set<Buffer>)
    requires Pool(arena, bs)
    ensures arena.Valid()
  {
  }

  /** One operation on the `i`th buffer granted. */
  method Address(arena: BuddyArena, bufs: seq<Buffer>, i: nat, op: Op)
    requires Pool(arena, Members(bufs)) && i < |bufs| && forall j, k :: 0 <= j < k < |bufs| ==> bufs[j] != bufs[k]
    modifies bufs[i], arena.Repr()
    ensures Pool(arena, Members(bufs)) && bufs[i].View() == Step(bufs[i].Limit(), old(bufs[i].View()), op)
    ensures forall j :: 0 <= j < |bufs| && j != i ==> bufs[j].View() == old(bufs[j].View())
    ensures arena.live == if old(bufs[i].Holding()) && !bufs[i].Holding() then old(arena.live) - {bufs[i].block}
                          else old(arena.live)
  {
    hide BuddyArena.Valid, Pool, Buffer.Valid, Offset, BlockSize, Inside, Step;
    assert bufs[i] in Members(bufs);
    Perform(arena, Members(bufs), bufs[i], op);
    assert forall j :: 0 <= j < |bufs| ==> bufs[j] in Members(bufs);
  }

  lemma StartsOnTrack(b: Buffer, script: seq<Cmd>, k: nat, i: nat)
    requires k < |script| && script[k].Open? && b.capacity >= script[k].len && b.View() == Life([], Writing, false, 0)
    ensures OnTrack(b, script, k, k + 1, i)
  {
    assert script[k + 1..k + 1] == [];
  }

  lemma MovesOnTrack(c: Limits, script: seq<Cmd>, from: nat, k: nat, i: nat, before: Life)
    requires from < k < |script| && script[k].Do? && script[k].i == i
    requires before == Lived(c, OpsFor(script[from + 1..k], i))
    ensures Step(c, before, script[k].op) == Lived(c, OpsFor(script[from + 1..k + 1], i))
  {
    OpsForSnoc(script, from + 1, k, i);
    LivedSnoc(c, OpsFor(script[from + 1..k], i), script[k].op);
  }

  // ----- the blocks out at each command, from the script alone

  /** Buffer `i` has its block before command `k`. */
  ghost predicate HasBlock(bufs: seq<Buffer>, granted: seq<nat>, script: seq<Cmd>, k: nat, i: nat)
    requires k <= |script| && |granted| == |bufs| && i < |bufs|
  {
    granted[i] < k && Holds(Lived(bufs[i].Limit(), OpsFor(script[granted[i] + 1..k], i)))
  }

  /** The blocks out before command `k`: those out at the start, and those of the buffers
      granted since that have neither spilled nor gone. */
  ghost function LiveAt(init: set<Block>, bufs: seq<Buffer>, granted: seq<nat>, script: seq<Cmd>, k: nat): set<Block>
    requires k <= |script| && |granted| == |bufs|
  {
    init + set i | 0 <= i < |bufs| && HasBlock(bufs, granted, script, k, i) :: bufs[i].block
  }

  /** The requests granted are those that could be served when they came. */
  ghost predicate GrantedIff(
    arena: BuddyArena, init: set<Block>, bufs: seq<Buffer>, granted: seq<nat>, script: seq<Cmd>, k: nat)
    requires k < |script| && |granted| == |bufs|
  {
    script[k].Open? ==> (k in granted <==> Servable(arena, LiveAt(init, bufs, granted, script, k), script[k].len))
  }

  /** A buffer granted at command `k` changes nothing about the commands before. */
  lemma EarlierSame(
    init: set<Block>, bufs: seq<Buffer>, granted: seq<nat>, b: Buffer, at: nat, script: seq<Cmd>, k: nat)
    requires k <= at <= |script| && |granted| == |bufs|
    ensures LiveAt(init, bufs + [b], granted + [at], script, k) == LiveAt(init, bufs, granted, script, k)
  {
    hide OpsFor, Lived, Holds;
    var bufs', granted' := bufs + [b], granted + [at];
    forall i | 0 <= i < |bufs|
      ensures HasBlock(bufs', granted', script, k, i) <==> HasBlock(bufs, granted, script, k, i) {}
    var a, z := LiveAt(init, bufs, granted, script, k), LiveAt(init, bufs', granted', script, k);
    forall x | x in z ensures x in a {
      if x !in init { var i :| 0 <= i < |bufs'| && HasBlock(bufs', granted', script, k, i) && bufs'[i].block == x; }
    }
    forall x | x in a ensures x in z {
      if x !in init {
        var i :| 0 <= i < |bufs| && HasBlock(bufs, granted, script, k, i) && bufs[i].block == x;
        assert HasBlock(bufs', granted', script, k, i) && bufs'[i].block == x;
      }
    }
  }

  /** Before command `k + 1` each buffer has its block exactly if its state says so. */
  ghost predicate Agrees(bufs: seq<Buffer>, granted: seq<nat>, script: seq<Cmd>, k: nat)
    requires k <= |script| && |granted| == |bufs|
    reads bufs
  {
    forall i :: 0 <= i < |bufs| ==> (HasBlock(bufs, granted, script, k, i) <==> bufs[i].Holding())
  }

  lemma TrackAgrees(bufs: seq<Buffer>, granted: seq<nat>, script: seq<Cmd>, k: nat)
    requires k <= |script| && |granted| == |bufs|
    requires forall i :: 0 <= i < |bufs| ==> OnTrack(bufs[i], script, granted[i], k, i)
    ensures Agrees(bufs, granted, script, k)
  {
    hide OpsFor, Lived;
    forall i | 0 <= i < |bufs| ensures HasBlock(bufs, granted, script, k, i) <==> bufs[i].Holding() {
      assert OnTrack(bufs[i], script, granted[i], k, i);
    }
  }

  /** The blocks out are those at the start and those of the buffers that hold one. */
  ghost predicate Out(live: set<Block>, init: set<Block>, bufs: seq<Buffer>)
    reads bufs
  {
    && (forall x :: x in live <==> x in init || exists i :: 0 <= i < |bufs| && bufs[i].Holding() && bufs[i].block == x)
    && (forall i :: 0 <= i < |bufs| ==> bufs[i].block !in init)
  }

  lemma OutIsLiveAt(
    live: set<Block>, init: set<Block>, bufs: seq<Buffer>, granted: seq<nat>, script: seq<Cmd>, k: nat)
    requires k <= |script| && |granted| == |bufs| && Out(live, init, bufs) && Agrees(bufs, granted, script, k)
    ensures live == LiveAt(init, bufs, granted, script, k)
  {
    hide HasBlock;
    var z := LiveAt(init, bufs, granted, script, k);
    forall x | x in live ensures x in z {
      if x !in init {
        var i :| 0 <= i < |bufs| && bufs[i].Holding() && bufs[i].block == x;
        assert HasBlock(bufs, granted, script, k, i);
      }
    }
    forall x | x in z ensures x in live {
      if x !in init { var i :| 0 <= i < |bufs| && HasBlock(bufs, granted, script, k, i) && bufs[i].block == x; }
    }
  }

  lemma NoneOut(init: set<Block>)
    ensures Out(init, init, [])
  {
  }

  lemma NotOpen(arena: BuddyArena, init: set<Block>, bufs: seq<Buffer>, granted: seq<nat>, script: seq<Cmd>, k: nat)
    requires k < |script| && |granted| == |bufs| && !script[k].Open?
    ensures GrantedIff(arena, init, bufs, granted, script, k)
  {
  }

  lemma Refused(arena: BuddyArena, init: set<Block>, bufs: seq<Buffer>, granted: seq<nat>, script: seq<Cmd>, k: nat)
    requires k < |script| && |granted| == |bufs| && script[k].Open? && k !in granted
    requires !Servable(arena, LiveAt(init, bufs, granted, script, k), script[k].len)
    ensures GrantedIff(arena, init, bufs, granted, script, k)
  {
  }

  /** The bookkeeping of one more buffer, granted at command `at`. */
  lemma GrantedStays(
    arena: BuddyArena, init: set<Block>, bufs: seq<Buffer>, granted: seq<nat>, b: Buffer, at: nat,
    script: seq<Cmd>, k: nat)
    requires k <= at < |script| && |granted| == |bufs|
    requires k < at ==> GrantedIff(arena, init, bufs, granted, script, k)
    requires k == at && script[k].Open? ==> Servable(arena, LiveAt(init, bufs, granted, script, k), script[k].len)
    ensures GrantedIff(arena, init, bufs + [b], granted + [at], script, k)
  {
    hide LiveAt, Servable;
    EarlierSame(init, bufs, granted, b, at, script, k);
    assert (granted + [at])[|granted|] == at;
  }

  lemma OneMoreOut(live: set<Block>, init: set<Block>, bufs: seq<Buffer>, b: Buffer)
    requires Out(live, init, bufs) && b.block !in live && b.Holding()
    ensures Out(live + {b.block}, init, bufs + [b])
  {
    var bufs' := bufs + [b];
    forall x ensures x in live + {b.block} <==>
                     x in init || exists i :: 0 <= i < |bufs'| && bufs'[i].Holding() && bufs'[i].block == x
    {
      if x == b.block { assert bufs'[|bufs|].block == x; }
      if i :| 0 <= i < |bufs| && bufs[i].Holding() && bufs[i].block == x { assert bufs'[i].block == x; }
    }
  }

  /** One request of a script. */
  method Request(
    arena: BuddyArena, ghost init: set<Block>, script: seq<Cmd>, k: nat, bufs: seq<Buffer>, ghost granted: seq<nat>,
    autoSpill: bool, usizeMax: nat, spare: nat -> nat)
    returns (bufs': seq<Buffer>, ghost granted': seq<nat>)
    requires Pool(arena, Members(bufs)) && |granted| == |bufs| && k < |script|
    requires script[k].Open? && 0 < script[k].len < Pow2(arena.bits)
    requires forall i :: 0 <= i < |bufs| ==> OnTrack(bufs[i], script, granted[i], k, i)
    requires forall i :: 0 <= i < |granted| ==> granted[i] < k
    requires Out(arena.live, init, bufs) && arena.live == LiveAt(init, bufs, granted, script, k)
    requires forall j :: 0 <= j < k ==> GrantedIff(arena, init, bufs, granted, script, j)
    modifies arena.Repr()
    ensures Pool(arena, Members(bufs')) && |granted'| == |bufs'| && Out(arena.live, init, bufs')
    ensures (bufs' == bufs && granted' == granted)
            || (&& |bufs'| == |bufs| + 1 && bufs' == bufs + [bufs'[|bufs|]] && fresh(bufs'[|bufs|])
                && granted' == granted + [k])
    ensures forall i :: 0 <= i < |bufs'| ==> OnTrack(bufs'[i], script, granted'[i], k + 1, i)
    ensures forall j :: 0 <= j <= k ==> GrantedIff(arena, init, bufs', granted', script, j)
  {
    hide BuddyArena.Valid, Pool, Buffer.Valid, Offset, BlockSize, Inside, Pow2, OpsFor, Lived, Step, Members;
    hide GrantedIff, LiveAt, Servable;
    ghost var live := arena.live;
    forall i | 0 <= i < |bufs| ensures OnTrack(bufs[i], script, granted[i], k + 1, i) {
      StaysOnTrack(bufs[i], script, granted[i], k, i);
    }
    var b := Grant(arena, bufs, script[k].len, autoSpill, usizeMax, spare);
    bufs', granted' := bufs, granted;
    assert Out(live, init, bufs);
    if b.Some? {
      StartsOnTrack(b.value, script, k, |bufs|);
      OneMoreOut(live, init, bufs, b.value);
      bufs', granted' := bufs + [b.value], granted + [k];
      forall j | 0 <= j <= k ensures GrantedIff(arena, init, bufs', granted', script, j) {
        GrantedStays(arena, init, bufs, granted, b.value, k, script, j);
      }
    } else {
      Refused(arena, init, bufs, granted, script, k);
    }
  }

  /** Which buffers hold a block. */
  ghost function Flags(bufs: seq<Buffer>): (held: seq<bool>)
    reads bufs
    ensures |held| == |bufs| && forall j :: 0 <= j < |bufs| ==> held[j] == bufs[j].Holding()
  {
    seq(|bufs|, j requires 0 <= j < |bufs| reads bufs => bufs[j].Holding())
  }

  /** As `Out`, with those that hold a block given by `held`; no two of them hold the same. */
  ghost predicate OutBy(live: set<Block>, init: set<Block>, bufs: seq<Buffer>, held: seq<bool>, i: nat)
    requires |held| == |bufs| && i < |bufs|
  {
    && (forall x :: x in live <==> x in init || exists j :: 0 <= j < |bufs| && held[j] && bufs[j].block == x)
    && (forall j :: 0 <= j < |bufs| ==> bufs[j].block !in init)
    && (forall j :: 0 <= j < |bufs| && j != i && held[j] && held[i] ==> bufs[j].block != bufs[i].block)
  }

  lemma OutNow(arena: BuddyArena, init: set<Block>, bufs: seq<Buffer>, i: nat)
    requires Pool(arena, Members(bufs)) && Out(arena.live, init, bufs) && i < |bufs|
    requires forall j, l :: 0 <= j < l < |bufs| ==> bufs[j] != bufs[l]
    ensures OutBy(arena.live, init, bufs, Flags(bufs), i)
  {
    hide Pool, Flags;
    var held := Flags(bufs);
    forall j | 0 <= j < |bufs| && j != i ensures held[j] && held[i] ==> bufs[j].block != bufs[i].block {
      PoolBlocks(arena, bufs, i, j);
    }
    forall x ensures x in arena.live <==> x in init || exists j :: 0 <= j < |bufs| && held[j] && bufs[j].block == x {
      if j :| 0 <= j < |bufs| && bufs[j].Holding() && bufs[j].block == x { assert held[j]; }
      if j :| 0 <= j < |bufs| && held[j] && bufs[j].block == x { assert bufs[j].Holding(); }
    }
  }

  lemma OneLessOut(live: set<Block>, live': set<Block>, init: set<Block>, bufs: seq<Buffer>, held: seq<bool>, i: nat)
    requires |held| == |bufs| && i < |bufs| && OutBy(live, init, bufs, held, i)
    requires forall j :: 0 <= j < |bufs| && j != i ==> held[j] == bufs[j].Holding()
    requires bufs[i].Holding() ==> held[i]
    requires live' == if held[i] && !bufs[i].Holding() then live - {bufs[i].block} else live
    ensures Out(live', init, bufs)
  {
    forall x
      ensures x in live' <==> x in init || exists j :: 0 <= j < |bufs| && bufs[j].Holding() && bufs[j].block == x
    {
      if j :| 0 <= j < |bufs| && held[j] && bufs[j].block == x {
        if j != i { assert bufs[j].Holding(); }
      }
      if j :| 0 <= j < |bufs| && bufs[j].Holding() && bufs[j].block == x { assert held[j]; }
    }
  }

  lemma NeverHeldAgain(c: Limits, v: Life, op: Op)
    ensures Holds(Step(c, v, op)) ==> Holds(v)
  {
  }

  lemma PoolBlocks(arena: BuddyArena, bufs: seq<Buffer>, i: nat, j: nat)
    requires Pool(arena, Members(bufs)) && i < |bufs| && j < |bufs| && bufs[i] != bufs[j]
    ensures bufs[i].Holding() && bufs[j].Holding() ==> bufs[i].block != bufs[j].block
  {
    hide BuddyArena.Valid, Buffer.Valid;
    assert bufs[i] in Members(bufs) && bufs[j] in Members(bufs);
  }

  /** One operation of a script. */
  method Operate(
    arena: BuddyArena, ghost init: set<Block>, script: seq<Cmd>, k: nat, bufs: seq<Buffer>, ghost granted: seq<nat>,
    i: nat, op: Op)
    requires Pool(arena, Members(bufs)) && |granted| == |bufs| && k < |script|
    requires forall j, l :: 0 <= j < l < |bufs| ==> bufs[j] != bufs[l]
    requires script[k] == Do(i, op) && i < |bufs| && Out(arena.live, init, bufs)
    requires forall j :: 0 <= j < |bufs| ==> OnTrack(bufs[j], script, granted[j], k, j)
    modifies bufs[i], arena.Repr()
    ensures Pool(arena, Members(bufs)) && Out(arena.live, init, bufs)
    ensures forall j :: 0 <= j < |bufs| ==> OnTrack(bufs[j], script, granted[j], k + 1, j)
  {
    hide BuddyArena.Valid, Pool, Buffer.Valid, Offset, BlockSize, Inside, Pow2, OpsFor, Lived, Step, Members;
    hide Out, OutBy, Flags;
    ghost var live, held := arena.live, Flags(bufs);
    OutNow(arena, init, bufs, i);
    forall j | 0 <= j < |bufs| && j != i ensures OnTrack(bufs[j], script, granted[j], k + 1, j) {
      StaysOnTrack(bufs[j], script, granted[j], k, j);
    }
    MovesOnTrack(bufs[i].Limit(), script, granted[i], k, i, bufs[i].View());
    NeverHeldAgain(bufs[i].Limit(), bufs[i].View(), op);
    Address(arena, bufs, i, op);
    forall j | 0 <= j < |bufs| && j != i ensures held[j] == bufs[j].Holding() {
      assert bufs[j].View() == old(bufs[j].View());
    }
    OneLessOut(live, arena.live, init, bufs, held, i);
  }

  /** Any script of allocations and buffer operations over one arena: every buffer that was
      granted holds what its own operations say, whatever the others did in between. A request
      is granted exactly if it can be served beside the blocks out at that moment, which are
      those out at the start and those of the buffers that have neither spilled nor gone. */
  method Session(arena: BuddyArena, script: seq<Cmd>, autoSpill: bool, usizeMax: nat, spare: nat -> nat)
    returns (bufs: seq<Buffer>, ghost granted: seq<nat>)
    requires arena.Valid() && forall k :: 0 <= k < |script| && script[k].Open? ==> 0 < script[k].len < Pow2(arena.bits)
    modifies arena.Repr()
    ensures Pool(arena, Members(bufs)) && |granted| == |bufs|
    ensures forall i :: 0 <= i < |bufs| ==> OnTrack(bufs[i], script, granted[i], |script|, i)
    ensures arena.live == LiveAt(old(arena.live), bufs, granted, script, |script|)
    ensures forall k :: 0 <= k < |script| ==> GrantedIff(arena, old(arena.live), bufs, granted, script, k)
  {
    hide BuddyArena.Valid, Pool, Buffer.Valid, Offset, BlockSize, Inside, Pow2, OpsFor, Lived, Step, Members;
    hide Out, GrantedIff, LiveAt, Servable, Agrees;
    bufs, granted := [], [];
    ghost var init := arena.live;
    EmptyPool(arena);
    NoneOut(init);
    var k := 0;
    while k < |script|
      invariant 0 <= k <= |script| && |granted| == |bufs| && Pool(arena, Members(bufs))
      invariant forall i :: 0 <= i < |bufs| ==> fresh(bufs[i])
      invariant forall i, j :: 0 <= i < j < |bufs| ==> bufs[i] != bufs[j]
      invariant forall i :: 0 <= i < |bufs| ==> OnTrack(bufs[i], script, granted[i], k, i)
      invariant forall i :: 0 <= i < |granted| ==> granted[i] < k
      invariant Out(arena.live, init, bufs)
      invariant forall j :: 0 <= j < k ==> GrantedIff(arena, init, bufs, granted, script, j)
    {
      TrackAgrees(bufs, granted, script, k);
      OutIsLiveAt(arena.live, init, bufs, granted, script, k);
      match script[k] {
        case Open(len) =>
          bufs, granted := Request(arena, init, script, k, bufs, granted, autoSpill, usizeMax, spare);
        case Do(i, op) =>
          NotOpen(arena, init, bufs, granted, script, k);
          if i < |bufs| {
            Operate(arena, init, script, k, bufs, granted, i, op);
          } else {
            forall j | 0 <= j < |bufs| ensures OnTrack(bufs[j], script, granted[j], k + 1, j) {
              StaysOnTrack(bufs[j], script, granted[j], k, j);
            }
          }
      }
      k := k + 1;
    }
    TrackAgrees(bufs, granted, script, k);
    OutIsLiveAt(arena.live, init, bufs, granted, script, k);
  }
}
