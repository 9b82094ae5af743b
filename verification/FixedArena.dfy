/** `FixedArena` (src/arena.rs, src/allocation.rs): equal slots handed out by one bitmap, with
    the zero-on-return policy and its counters.
 */
module FixedArenas {
  import opened Words
  import opened Bitmaps
  import opened Geometry
  import opened BuddyArenas

  // ----- sizes

  /** The size checks of `build_inner` (src/arena.rs:615-634) and the limit a memory layout
      has: the aligned slot capacity and the total size. */
  function BuildSizes(bits: nat, slotCount: nat, slotCapacity: nat, alignment: nat): Option<(nat, nat)>
    requires 0 < alignment < Pow2(bits) && bits > 0
  {
    match AlignUp(bits, slotCapacity, alignment)
    case None => None
    case Some(aligned) => if slotCount * aligned < Pow2(bits - 1) then Some((aligned, slotCount * aligned)) else None
  }

  /** Building succeeds exactly when that many slots of the least aligned capacity fit. */
  lemma BuildSizesFit(bits: nat, slotCount: nat, slotCapacity: nat, a: nat, c: nat)
    requires 0 < slotCapacity < Pow2(bits) && a < bits && Pow2(a) < Pow2(bits) && 0 < slotCount
    requires c % Pow2(a) == 0 && slotCapacity <= c < slotCapacity + Pow2(a)
    ensures BuildSizes(bits, slotCount, slotCapacity, Pow2(a))
            == if slotCount * c < Pow2(bits - 1) then Some((c, slotCount * c)) else None
  {
    AlignUpLeast(bits, slotCapacity, a, c);
    AtLeastOne(slotCount, c);
    Pow2Step(bits - 1);
  }

  lemma AtLeastOne(n: nat, c: nat)
    requires n > 0
    ensures n * c >= c
  {
    if n > 1 { MulGap(1, n, c); }
  }

  // ----- slots and bytes

  /** First byte of a slot of `c` bytes. */
  function SlotStart(c: nat, s: nat): nat { s * c }

  lemma NextSlot(c: nat, s: nat)
    ensures SlotStart(c, s + 1) == SlotStart(c, s) + c
  {
  }

  /** Slots lie one after the other. */
  lemma SlotBytes(s: nat, t: nat, n: nat, c: nat)
    requires s < n && t < n
    ensures SlotStart(c, s) + c <= SlotStart(c, n)
    ensures s < t ==> SlotStart(c, s) + c <= SlotStart(c, t)
    ensures t < s ==> SlotStart(c, t) + c <= SlotStart(c, s)
  {
    MulGap(s, n, c);
    if s < t { MulGap(s, t, c); }
    if t < s { MulGap(t, s, c); }
  }

  /** A slot that is out of use with its zeroed bit set holds only zeros. */
  ghost predicate SlotsScrubbed(mem: seq<Byte>, n: nat, c: nat, live: set<nat>, zeroed: set<nat>)
  {
    forall s: nat :: s < n && s in zeroed && s !in live ==> Zeros(mem, SlotStart(c, s), c)
  }

  /** Writing inside slot `s` keeps the others scrubbed. */
  lemma ScrubbedBeside(m: seq<Byte>, m': seq<Byte>, n: nat, c: nat, live: set<nat>, z: set<nat>, s: nat)
    requires SlotsScrubbed(m, n, c, live, z) && |m'| == |m| && s < n
    requires forall j :: 0 <= j < |m| && !(SlotStart(c, s) <= j < SlotStart(c, s) + c) ==> m'[j] == m[j]
    ensures SlotsScrubbed(m', n, c, live + {s}, z)
    ensures Zeros(m', SlotStart(c, s), c) ==>
      SlotsScrubbed(m', n, c, live - {s}, z) && SlotsScrubbed(m', n, c, live - {s}, z + {s})
  {
    forall t: nat | t < n && t != s && Zeros(m, SlotStart(c, t), c) ensures Zeros(m', SlotStart(c, t), c) {
      SlotBytes(s, t, n, c);
    }
  }

  class FixedArena {
    const bits: nat
    const slotCount: nat
    const slotCapacity: nat
    const bitmap: Bitmap
    const zeroPolicy: bool
    const zeroed: Bitmap
    const mem: array<Byte>
    var allocationsOk: nat
    var allocationsFailed: nat
    var frees: nat
    var bytesLive: int
    ghost var live: set<nat>

    function Start(slot: nat): nat { SlotStart(slotCapacity, slot) }

    ghost predicate Shape()
    {
      && bits > 0 && bitmap.bits == bits && zeroed.bits == bits
      && bitmap.slotCount == slotCount && zeroed.slotCount == slotCount
      && mem.Length == SlotStart(slotCapacity, slotCount)
      && bitmap != zeroed && bitmap.words != zeroed.words
      && mem as object != bitmap.words && mem as object != zeroed.words
    }

    /** A slot is free in the bitmap exactly when it is not in use, and the counters agree
        with the slots in use. */
    ghost predicate Valid()
      reads this, bitmap, bitmap.words, zeroed, zeroed.words, mem
    {
      && Shape() && bitmap.Valid() && zeroed.Valid()
      && (forall s: nat :: s in live <==> s < slotCount && s !in bitmap.Members())
      && (zeroPolicy ==> SlotsScrubbed(mem[..], slotCount, slotCapacity, live, zeroed.Members()))
      && allocationsOk - frees == |live| && bytesLive == SlotStart(slotCapacity, |live|)
    }

    /** State after `build_inner` (src/arena.rs:636-659); the backing bytes are arbitrary. */
    constructor (bits: nat, slotCount: nat, slotCapacity: nat, zeroPolicy: bool, mem: array<Byte>)
      requires 0 < bits && slotCount < Pow2(bits) && mem.Length == slotCount * slotCapacity
      ensures Valid() && live == {} && this.mem == mem
      ensures fresh(bitmap) && fresh(bitmap.words) && fresh(zeroed) && fresh(zeroed.words)
      ensures this.slotCount == slotCount && this.slotCapacity == slotCapacity && this.zeroPolicy == zeroPolicy
    {
      hide Bitmap.Valid, Bitmap.Members, AllSlots, Pow2;
      var bitmap := new Bitmap(bits, slotCount, true);
      var zeroed := new Bitmap(bits, slotCount, false);
      this.bits, this.slotCount, this.slotCapacity, this.bitmap := bits, slotCount, slotCapacity, bitmap;
      this.zeroPolicy, this.zeroed, this.mem := zeroPolicy, zeroed, mem;
      allocationsOk, allocationsFailed, frees, bytesLive, live := 0, 0, 0, 0, {};
    }

    /** `zeroize_region` over one slot. */
    method ZeroizeSlot(slot: nat)
      requires Shape() && slot < slotCount
      modifies mem
      ensures Zeros(mem[..], Start(slot), slotCapacity)
      ensures forall j :: 0 <= j < mem.Length && !(Start(slot) <= j < Start(slot) + slotCapacity) ==>
        mem[j] == old(mem[j])
    {
      SlotBytes(slot, slot, slotCount, slotCapacity);
      var offset, i := Start(slot), 0;
      while i < slotCapacity
        invariant 0 <= i <= slotCapacity
        invariant forall j :: offset <= j < offset + i ==> mem[j] == 0
        invariant forall j :: 0 <= j < mem.Length && !(offset <= j < offset + slotCapacity) ==> mem[j] == old(mem[j])
      {
        mem[offset + i] := 0;
        i := i + 1;
      }
    }

    ghost predicate Picked(start: nat, members: set<nat>, slot: nat)
    {
      bits > 0 && start < bitmap.scanWords && IsPick(bits, bitmap.scanWords, start, members, slot)
    }

    /** The init policy on the allocation path (src/arena.rs:450-461): the slot is zeroed unless
        its zeroed bit is set. */
    method InitSlot(slot: nat)
      requires Shape() && zeroed.Valid() && slot < slotCount && slot !in live
      requires zeroPolicy ==> SlotsScrubbed(mem[..], slotCount, slotCapacity, live, zeroed.Members())
      modifies mem
      ensures zeroPolicy ==> SlotsScrubbed(mem[..], slotCount, slotCapacity, live + {slot}, zeroed.Members())
      ensures zeroPolicy ==> Zeros(mem[..], Start(slot), slotCapacity)
      ensures !zeroPolicy ==> mem[..] == old(mem[..])
      ensures forall j :: 0 <= j < mem.Length && !(Start(slot) <= j < Start(slot) + slotCapacity) ==>
        mem[j] == old(mem[j])
    {
      hide Bitmap.Valid, Bitmap.Members;
      if zeroPolicy {
        var allSet := zeroed.AllSetInRange(slot, slot + 1);
        if !allSet { ZeroizeSlot(slot); }
        ScrubbedBeside(old(mem[..]), mem[..], slotCount, slotCapacity, live, zeroed.Members(), slot);
      }
    }

    /** `allocate` (src/arena.rs:442-475): fails exactly when every slot is in use, otherwise
        hands out the free slot nearest in scan order, zeroed under the zero policy. */
    method Allocate() returns (r: Option<nat>)
      requires Valid()
      modifies this`live, this`allocationsOk, this`allocationsFailed, this`bytesLive, bitmap, bitmap.words, mem
      ensures Valid()
      ensures r.None? <==> old(live) == AllSlots(slotCount)
      ensures r.None? ==>
        live == old(live) && mem[..] == old(mem[..]) && allocationsFailed == old(allocationsFailed) + 1
      ensures r.Some? ==>
              && r.value < slotCount && r.value !in old(live) && live == old(live) + {r.value}
              && Picked(old(bitmap.Start()), old(bitmap.Members()), r.value)
              && allocationsFailed == old(allocationsFailed)
              && (zeroPolicy ==> Zeros(mem[..], Start(r.value), slotCapacity))
      ensures !zeroPolicy ==> mem[..] == old(mem[..])
      ensures forall s: nat :: s in old(live) ==> SlotKept(s)
    {
      hide Bitmap.Valid, Bitmap.Members, Bitmap.Start, IsPick, SlotsScrubbed, AllSlots, Zeros, SlotStart;
      r := bitmap.TryAlloc();
      if r.None? {
        assert live == AllSlots(slotCount);
        allocationsFailed := allocationsFailed + 1;
        return;
      }
      PickIsMember(bitmap, old(bitmap.Start()), old(bitmap.Members()), r.value);
      HandOut(r.value);
    }

    /** Initialisation and counters of a claimed slot (src/arena.rs:450-465). */
    method HandOut(slot: nat)
      requires Shape() && bitmap.Valid() && zeroed.Valid() && slot < slotCount && slot !in live
      requires forall s: nat :: s in live || s == slot <==> s < slotCount && s !in bitmap.Members()
      requires zeroPolicy ==> SlotsScrubbed(mem[..], slotCount, slotCapacity, live, zeroed.Members())
      requires allocationsOk - frees == |live| && bytesLive == SlotStart(slotCapacity, |live|)
      modifies this`live, this`allocationsOk, this`bytesLive, mem
      ensures Valid() && live == old(live) + {slot}
      ensures zeroPolicy ==> Zeros(mem[..], Start(slot), slotCapacity)
      ensures !zeroPolicy ==> mem[..] == old(mem[..])
      ensures forall s: nat :: s in old(live) ==> SlotKept(s)
    {
      hide Bitmap.Valid, Bitmap.Members, SlotsScrubbed, Zeros, SlotStart;
      InitSlot(slot);
      forall s: nat | s in live ensures SlotKept(s) { SlotBytes(slot, s, slotCount, slotCapacity); }
      NextSlot(slotCapacity, |live|);
      live := live + {slot};
      allocationsOk, bytesLive := allocationsOk + 1, bytesLive + slotCapacity;
    }

    /** The init policy on the return path (src/allocation.rs:23-32). */
    method ScrubSlot(slot: nat)
      requires Shape() && zeroed.Valid() && slot < slotCount
      requires zeroPolicy ==> SlotsScrubbed(mem[..], slotCount, slotCapacity, live, zeroed.Members())
      modifies zeroed.words, mem
      ensures zeroed.Valid()
      ensures zeroPolicy ==> SlotsScrubbed(mem[..], slotCount, slotCapacity, live - {slot}, zeroed.Members())
      ensures zeroPolicy ==> slot in zeroed.Members() && Zeros(mem[..], Start(slot), slotCapacity)
      ensures !zeroPolicy ==> mem[..] == old(mem[..])
      ensures forall j :: 0 <= j < mem.Length && !(Start(slot) <= j < Start(slot) + slotCapacity) ==>
        mem[j] == old(mem[j])
    {
      hide Bitmap.Valid, Bitmap.Members, SlotsScrubbed, SlotStart;
      if zeroPolicy {
        ZeroizeSlot(slot);
        ghost var z := zeroed.Members();
        zeroed.SetRange(slot, slot + 1);
        assert zeroed.Members() == z + {slot};
        ScrubbedBeside(old(mem[..]), mem[..], slotCount, slotCapacity, live, z, slot);
      }
    }

    /** Returning a slot (src/allocation.rs:22-39): scrub it, mark it zeroed, then free it. */
    method Release(slot: nat)
      requires Valid() && slot in live
      modifies this`live, this`frees, this`bytesLive, bitmap.words, zeroed.words, mem
      ensures Valid() && live == old(live) - {slot} && frees == old(frees) + 1
      ensures bitmap.Members() == old(bitmap.Members()) + {slot}
      ensures zeroPolicy ==> slot in zeroed.Members() && Zeros(mem[..], Start(slot), slotCapacity)
      ensures !zeroPolicy ==> mem[..] == old(mem[..])
      ensures forall s: nat :: s in live ==> SlotKept(s)
    {
      hide Bitmap.Valid, Bitmap.Members, SlotsScrubbed, SlotStart, Zeros;
      ScrubSlot(slot);
      bitmap.Free(slot);
      ghost var rest := live - {slot};
      assert live == rest + {slot};
      NextSlot(slotCapacity, |rest|);
      live := rest;
      frees, bytesLive := frees + 1, bytesLive - slotCapacity;
      forall s: nat | s in live ensures SlotKept(s) { SlotBytes(slot, s, slotCount, slotCapacity); }
    }

    /** A holder writes into its slot. */
    method WriteByte(slot: nat, at: nat, v: Byte)
      requires Valid() && slot in live && at < slotCapacity && Start(slot) + at < mem.Length
      modifies mem
      ensures Valid() && mem[..] == old(mem[..])[Start(slot) + at := v]
    {
      hide Bitmap.Valid, Bitmap.Members, SlotsScrubbed, SlotStart;
      mem[Start(slot) + at] := v;
      assert live + {slot} == live;
      if zeroPolicy { ScrubbedBeside(old(mem[..]), mem[..], slotCount, slotCapacity, live, zeroed.Members(), slot); }
    }

    /** Every slot can be had, each once, and then no more: the arena holds exactly its slots. */
    method AllocateAll() returns (slots: seq<nat>)
      requires Valid() && live == {}
      modifies this`live, this`allocationsOk, this`allocationsFailed, this`bytesLive, bitmap, bitmap.words, mem
      ensures Valid() && live == AllSlots(slotCount) && |slots| == slotCount && bytesLive == mem.Length
      ensures forall i, j :: 0 <= i < j < |slots| ==> slots[i] != slots[j]
      ensures allocationsFailed == old(allocationsFailed) + 1
    {
      hide Bitmap.Valid, Bitmap.Members, SlotsScrubbed, IsPick, AllSlots, SlotStart;
      slots := [];
      var r := Allocate();
      while r.Some?
        invariant Valid() && allocationsFailed == old(allocationsFailed) + if r.None? then 1 else 0
        invariant r.None? ==>
          live == AllSlots(slotCount) && |live| == |slots| && forall s: nat :: s in live <==> s in slots
        invariant r.Some? ==> r.value in live && r.value !in slots && |live| == |slots| + 1
        invariant r.Some? ==> forall s: nat :: s in live <==> s in slots || s == r.value
        invariant forall i, j :: 0 <= i < j < |slots| ==> slots[i] != slots[j]
        decreases slotCount - |slots|, if r.Some? then 1 else 0
      {
        LiveBound();
        slots := slots + [r.value];
        r := Allocate();
      }
    }

    lemma LiveBound()
      requires Valid()
      ensures |live| <= slotCount
    {
      assert live <= AllSlots(slotCount);
      SubsetSize(live, AllSlots(slotCount));
    }

    /** The bytes of a slot are as they were. */
    twostate predicate SlotKept(s: nat)
      reads mem
    {
      forall j :: Start(s) <= j < Start(s) + slotCapacity && 0 <= j < mem.Length ==> mem[j] == old(mem[j])
    }
  }

  lemma PickIsMember(bitmap: Bitmap, start: nat, members: set<nat>, slot: nat)
    requires bitmap.bits > 0 && start < bitmap.scanWords && IsPick(bitmap.bits, bitmap.scanWords, start, members, slot)
    ensures slot in members
  {
  }
}
