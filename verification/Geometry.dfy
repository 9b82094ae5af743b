/** Size and geometry arithmetic on machine words (src/geometry.rs, src/spec.rs, src/arena.rs
    and `order_for_request` of src/buddy.rs), for any word width `bits`.

    A `usize` is a number below `Pow2(bits)`. `next_power_of_two` and `<<` are modelled as
    in a release build, where they wrap.
 */
module Geometry {
  import opened Words
  import opened Bitmaps

  datatype BuildError =
    | SizeOverflow
    | InvalidGeometry
    | InvalidAlignment
    | ZeroUsableSlots
    | SlotSizeExceedsBacking

  datatype Result<+T> = Ok(value: T) | Err(error: BuildError)

  // ----- word arithmetic

  function CheckedAdd(bits: nat, x: nat, y: nat): Option<nat>
  {
    if x + y < Pow2(bits) then Some(x + y) else None
  }

  function CheckedMul(bits: nat, x: nat, y: nat): Option<nat>
  {
    if x * y < Pow2(bits) then Some(x * y) else None
  }

  function CheckedNextPow2(bits: nat, n: nat): Option<nat>
  {
    if Log2Ceil(n) < bits then Some(Pow2(Log2Ceil(n))) else None
  }

  /** `next_power_of_two` of a release build: zero when the result does not fit. */
  function NextPow2(bits: nat, n: nat): nat
  {
    if Log2Ceil(n) < bits then Pow2(Log2Ceil(n)) else 0
  }

  predicate IsPow2(n: nat)
  {
    CountOnes(n) == 1
  }

  function WordTrailingZeros(bits: nat, x: nat): nat
  {
    if x == 0 then bits else TrailingZeros(x)
  }

  lemma {:induction false} TrailingZerosPow2(k: nat)
    ensures TrailingZeros(Pow2(k)) == k
  {
    Pow2Bit(k, TrailingZeros(Pow2(k)));
  }

  lemma {:induction false} CountOnesZero(x: nat)
    ensures CountOnes(x) == 0 <==> x == 0
  {
    if x > 0 { CountOnesZero(x / 2); }
  }

  lemma {:induction false} IsPow2Exact(n: nat)
    ensures IsPow2(n) ==> n > 0 && n == Pow2(TrailingZeros(n))
  {
    if n > 0 {
      if n % 2 == 1 { CountOnesZero(n / 2); } else { IsPow2Exact(n / 2); }
    }
  }

  lemma {:induction false} CountOnesDouble(x: nat)
    ensures CountOnes(2 * x) == CountOnes(x)
  {
    assert (2 * x) / 2 == x;
  }

  lemma {:induction false} Pow2IsPow2(k: nat)
    ensures IsPow2(Pow2(k))
  {
    if k > 0 {
      Pow2IsPow2(k - 1);
      CountOnesDouble(Pow2(k - 1));
    }
  }

  lemma Log2CeilLeast(n: nat, k: nat)
    ensures n <= Pow2(k) <==> Log2Ceil(n) <= k
  {
    var c := Log2Ceil(n);
    if c <= k { Pow2Monotone(c, k); } else { Pow2Monotone(k, c - 1); }
  }

  /** `a <= p * d` for a rounded-up quotient `a`. */
  lemma CeilDivLeast(t: nat, d: nat, p: nat)
    requires d > 0
    ensures (t + d - 1) / d <= p <==> t <= p * d
  {
    var q := (t + d - 1) / d;
    DivModSplit(t + d - 1, d);
    if q < p { MulGap(q, p, d); }
    if p < q { MulGap(p, q, d); }
  }

  // ----- order_for_request

  /** `order_for_request` (src/buddy.rs:261-267). */
  function OrderForRequest(bits: nat, minBlock: nat, total: nat, len: nat): (r: Option<int>)
  {
    var size := NextPow2(bits, if len >= minBlock then len else minBlock);
    if size > total then None
    else Some(WordTrailingZeros(bits, size) - WordTrailingZeros(bits, minBlock))
  }

  /** `k` is the least order whose block holds `len` bytes. */
  ghost predicate LeastOrder(m: nat, len: nat, k: nat)
  {
    len <= Pow2(m + k) && (k > 0 ==> Pow2(m + k - 1) < len)
  }

  /** For every length up to half the word range, the request is refused exactly when it
      exceeds the arena, and otherwise gets the least order whose block holds it. */
  lemma OrderForRequestLeast(bits: nat, m: nat, maxOrder: nat, len: nat)
    requires m + maxOrder < bits && 0 < len <= Pow2(bits - 1)
    ensures var r := OrderForRequest(bits, Pow2(m), Pow2(m + maxOrder), len);
            && (r.None? <==> len > Pow2(m + maxOrder))
            && (r.Some? ==> 0 <= r.value <= maxOrder && r.value == RequestOrder(m, len) && LeastOrder(m, len, r.value))
  {
    hide Pow2, Log2Ceil, TrailingZeros;
    var c := RequestExponent(m, len);
    RequestSize(bits, m, len);
    Log2CeilLeast(len, bits - 1);
    TrailingZerosPow2(m);
    TrailingZerosPow2(c);
    Log2CeilLeast(len, m + maxOrder);
    if c <= m + maxOrder { Pow2Monotone(c, m + maxOrder); } else { Pow2Monotone(m + maxOrder, c); }
    Log2CeilLeast(len, c);
    if c > m { Log2CeilLeast(len, c - 1); }
    assert c == m + (c - m);
  }

  /** The exponent of the block a request of `len` bytes is rounded to. */
  function RequestExponent(m: nat, len: nat): nat
  {
    if Log2Ceil(len) >= m then Log2Ceil(len) else m
  }

  /** The order a request of `len` bytes is served at. */
  function RequestOrder(m: nat, len: nat): nat
  {
    RequestExponent(m, len) - m
  }

  lemma RequestSize(bits: nat, m: nat, len: nat)
    requires m < bits
    ensures NextPow2(bits, if len >= Pow2(m) then len else Pow2(m))
            == if RequestExponent(m, len) < bits then Pow2(RequestExponent(m, len)) else 0
  {
    Log2CeilLeast(len, m);
    Log2CeilLeast(Pow2(m), m);
    if m > 0 { Pow2Monotone(m - 1, m); Log2CeilLeast(Pow2(m), m - 1); }
  }

  /** The promise "a request larger than the arena is refused as too large" holds exactly
      for lengths that are within the arena or at most half the word range: beyond that
      the rounding wraps to zero and an order past the arena's orders is returned. */
  lemma OrderForRequestRefusesIff(bits: nat, m: nat, maxOrder: nat, len: nat)
    requires m + maxOrder < bits && 0 < len < Pow2(bits)
    ensures RefusedIffTooLarge(bits, m, maxOrder, len) <==> len <= Pow2(bits - 1)
    ensures len > Pow2(bits - 1) ==>
              OrderForRequest(bits, Pow2(m), Pow2(m + maxOrder), len) == Some(bits - m) && bits - m > maxOrder
  {
    hide Pow2, Log2Ceil, OrderForRequest;
    if len <= Pow2(bits - 1) {
      OrderForRequestLeast(bits, m, maxOrder, len);
    } else {
      OrderForRequestWraps(bits, m, maxOrder, len);
      Pow2Monotone(m + maxOrder, bits - 1);
    }
  }

  ghost predicate RefusedIffTooLarge(bits: nat, m: nat, maxOrder: nat, len: nat)
  {
    OrderForRequest(bits, Pow2(m), Pow2(m + maxOrder), len).None? <==> len > Pow2(m + maxOrder)
  }

  lemma OrderForRequestWraps(bits: nat, m: nat, maxOrder: nat, len: nat)
    requires m + maxOrder < bits && Pow2(bits - 1) < len
    ensures OrderForRequest(bits, Pow2(m), Pow2(m + maxOrder), len) == Some(bits - m)
  {
    Log2CeilLeast(len, bits - 1);
    RequestSize(bits, m, len);
    TrailingZerosPow2(m);
  }

  // ----- buddy geometry

  datatype BuddyGeometry =
    BuddyGeometry(totalSize: nat, minBlockSize: nat, maxOrder: nat, alignment: nat, capCapacity: bool)

  /** `validate_buddy_geometry` (src/geometry.rs:181-200). */
  function Validate(bits: nat, total: nat, minBlock: nat): (r: Option<nat>)
  {
    if !IsPow2(minBlock) then None
    else if total < minBlock then None
    else
      IsPow2Exact(minBlock);
      if total % minBlock != 0 then None
      else
        var blocks := total / minBlock;
        if !IsPow2(blocks) then None
        else
          IsPow2Exact(blocks);
          var maxOrder := WordTrailingZeros(bits, blocks);
          if maxOrder >= bits then None else Some(maxOrder)
  }

  ghost predicate IsShape(total: nat, minBlock: nat, k: nat, m: nat)
  {
    minBlock == Pow2(m) && total == Pow2(m + k)
  }

  /** Validation accepts exactly the powers of two `2^m` and `2^(m+k)`, and finds `k`. */
  lemma ValidateIff(bits: nat, total: nat, minBlock: nat, k: nat)
    requires 0 < total < Pow2(bits) && 0 < minBlock < Pow2(bits)
    ensures Validate(bits, total, minBlock) == Some(k) <==> exists m: nat :: IsShape(total, minBlock, k, m)
  {
    if Validate(bits, total, minBlock) == Some(k) {
      var m := ValidateShape(bits, total, minBlock, k);
    }
    if exists m: nat :: IsShape(total, minBlock, k, m) {
      var m: nat :| IsShape(total, minBlock, k, m);
      ValidateAccepts(bits, m, k);
    }
  }

  lemma ValidateShape(bits: nat, total: nat, minBlock: nat, k: nat) returns (m: nat)
    requires Validate(bits, total, minBlock) == Some(k)
    ensures IsShape(total, minBlock, k, m)
  {
    IsPow2Exact(minBlock);
    m := TrailingZeros(minBlock);
    IsPow2Exact(total / minBlock);
    DivModSplit(total, minBlock);
    Pow2Add(k, m);
  }

  lemma Pow2Quotient(m: nat, k: nat)
    ensures Pow2(m) > 0 && Pow2(m + k) / Pow2(m) == Pow2(k) && Pow2(m + k) % Pow2(m) == 0
  {
    hide Pow2;
    Pow2Add(m, k);
    DivModUnique(Pow2(k), 0, Pow2(m), Pow2(m + k));
  }

  lemma ValidateAccepts(bits: nat, m: nat, k: nat)
    requires Pow2(m + k) < Pow2(bits)
    ensures Validate(bits, Pow2(m + k), Pow2(m)) == Some(k)
  {
    hide Pow2;
    Pow2IsPow2(m);
    Pow2IsPow2(k);
    Pow2Monotone(m, m + k);
    Pow2Quotient(m, k);
    TrailingZerosPow2(k);
    if k >= bits { Pow2Monotone(bits, m + k); }
  }

  /** `BuddyGeometry::exact` (src/geometry.rs:39-56). */
  function Exact(bits: nat, total: nat, minBlock: nat): Result<BuddyGeometry>
  {
    match Validate(bits, total, minBlock)
    case None => Err(InvalidGeometry)
    case Some(k) => Ok(BuddyGeometry(total, minBlock, k, 1, false))
  }

  /** `snap_to_valid_geometry` (src/geometry.rs:162-179). */
  function Snap(bits: nat, totalHint: nat, minBlock: nat): (r: Result<(nat, nat)>)
    requires minBlock > 0
  {
    var t := if totalHint >= minBlock then totalHint else minBlock;
    match CheckedAdd(bits, t, minBlock - 1)
    case None => Err(SizeOverflow)
    case Some(sum) =>
      match CheckedNextPow2(bits, sum / minBlock)
      case None => Err(SizeOverflow)
      case Some(pow2Blocks) =>
        match CheckedMul(bits, pow2Blocks, minBlock)
        case None => Err(SizeOverflow)
        case Some(total) => Ok((total, WordTrailingZeros(bits, pow2Blocks)))
  }

  /** Snapping returns the least `minBlock * 2^k` that covers the hint, and fails exactly
      when that least value does not fit the word. */
  lemma SnapIsLeast(bits: nat, hint: nat, m: nat, k: nat)
    requires m < bits && hint < Pow2(bits) && LeastOrder(m, hint, k)
    ensures Snap(bits, hint, Pow2(m)) == if m + k < bits then Ok((Pow2(m + k), k)) else Err(SizeOverflow)
  {
    hide Pow2, Log2Ceil, TrailingZeros, Snap;
    var t := if hint >= Pow2(m) then hint else Pow2(m);
    SnapBlocks(hint, m, k);
    Pow2Add(k, m);
    TrailingZerosPow2(k);
    if m + k < bits {
      SnapSumFits(bits, t, m, k);
    } else {
      Pow2Monotone(bits, m + k);
    }
    SnapCases(bits, hint, Pow2(m), k, Pow2(m + k));
  }

  /** `Snap` with its least exponent known. */
  lemma SnapCases(bits: nat, hint: nat, d: nat, k: nat, total: nat)
    requires d > 0 && total == Pow2(k) * d && TrailingZeros(Pow2(k)) == k
    requires var t := if hint >= d then hint else d;
             Log2Ceil((t + d - 1) / d) == k && (total < Pow2(bits) ==> k < bits && t + d - 1 < Pow2(bits))
    ensures Snap(bits, hint, d) == if total < Pow2(bits) then Ok((total, k)) else Err(SizeOverflow)
  {
    hide Pow2, Log2Ceil, TrailingZeros;
  }

  lemma SnapSumFits(bits: nat, t: nat, m: nat, k: nat)
    requires m + k < bits && t <= Pow2(m + k)
    ensures t + Pow2(m) - 1 < Pow2(bits) && Pow2(m + k) < Pow2(bits) && k < bits
  {
    Pow2Monotone(m, m + k);
    Pow2Monotone(m + k + 1, bits);
  }

  lemma SnapBlocks(hint: nat, m: nat, k: nat)
    requires LeastOrder(m, hint, k)
    ensures Pow2(m) <= Pow2(m + k)
    ensures var t := if hint >= Pow2(m) then hint else Pow2(m);
            Log2Ceil((t + Pow2(m) - 1) / Pow2(m)) == k
  {
    var t := if hint >= Pow2(m) then hint else Pow2(m);
    Pow2Monotone(m, m + k);
    BlocksFit(t, m, k);
    if k > 0 {
      BlocksFit(t, m, k - 1);
      Pow2Monotone(m, m + (k - 1));
    }
  }

  lemma BlocksFit(t: nat, m: nat, k: nat)
    ensures Log2Ceil((t + Pow2(m) - 1) / Pow2(m)) <= k <==> t <= Pow2(m + k)
  {
    Pow2Add(k, m);
    BlocksFitIn(t, Pow2(m), k, Pow2(m + k));
  }

  lemma BlocksFitIn(t: nat, d: nat, k: nat, total: nat)
    requires d > 0 && total == Pow2(k) * d
    ensures Log2Ceil((t + d - 1) / d) <= k <==> t <= total
  {
    CeilDivLeast(t, d, Pow2(k));
    Log2CeilLeast((t + d - 1) / d, k);
  }

  /** A successful snap is accepted by validation and covers the hint. */
  lemma SnapValidates(bits: nat, hint: nat, m: nat)
    requires m < bits && 0 < hint < Pow2(bits)
    ensures var r := Snap(bits, hint, Pow2(m));
            r.Ok? ==> Validate(bits, r.value.0, Pow2(m)) == Some(r.value.1)
                      && hint <= r.value.0 && r.value.0 == Pow2(m + r.value.1) && m + r.value.1 < bits
  {
    hide Pow2, Snap, Validate;
    var c := Log2Ceil(hint);
    var k := if c > m then c - m else 0;
    Log2CeilLeast(hint, m + k);
    if k > 0 { Log2CeilLeast(hint, m + k - 1); }
    SnapIsLeast(bits, hint, m, k);
    if m + k < bits {
      Pow2Monotone(m + k, bits);
      ValidateAccepts(bits, m, k);
    }
  }

  /** `BuddyGeometry::nearest` (src/geometry.rs:80-98). */
  function Nearest(bits: nat, total: nat, minBlock: nat): Result<BuddyGeometry>
  {
    match CheckedNextPow2(bits, minBlock)
    case None => Err(SizeOverflow)
    case Some(mb) =>
      match Snap(bits, total, mb)
      case Err(e) => Err(e)
      case Ok((t, k)) => Ok(BuddyGeometry(t, mb, k, 1, true))
  }

  /** `with_alignment` (src/geometry.rs:106-130). */
  function WithAlignment(bits: nat, g: BuddyGeometry, alignment: nat): Result<BuddyGeometry>
    requires alignment > 0
  {
    if !IsPow2(alignment) then Err(InvalidAlignment)
    else if alignment <= g.minBlockSize then Ok(g.(alignment := alignment))
    else if !g.capCapacity then Err(InvalidGeometry)
    else
      match Snap(bits, g.totalSize, alignment)
      case Err(e) => Err(e)
      case Ok((t, k)) => Ok(BuddyGeometry(t, alignment, k, alignment, g.capCapacity))
  }

  /** A geometry that arena construction may rely on. */
  ghost predicate ValidGeometry(bits: nat, g: BuddyGeometry)
  {
    && 0 < g.minBlockSize < Pow2(bits) && 0 < g.totalSize < Pow2(bits)
    && Validate(bits, g.totalSize, g.minBlockSize) == Some(g.maxOrder)
    && g.maxOrder < bits
    && IsPow2(g.alignment) && 0 < g.alignment <= g.minBlockSize
  }

  /** Every way of building a geometry yields a valid one, never smaller than asked for. */
  lemma ConstructorsValid(bits: nat, total: nat, minBlock: nat, alignment: nat)
    requires 0 < total < Pow2(bits) && 0 < minBlock < Pow2(bits) && 0 < alignment < Pow2(bits)
    ensures var r := Exact(bits, total, minBlock); r.Ok? ==> ValidGeometry(bits, r.value)
    ensures var r := Nearest(bits, total, minBlock);
            r.Ok? ==> ValidGeometry(bits, r.value) && r.value.totalSize >= total && r.value.minBlockSize >= minBlock
    ensures forall g :: ValidGeometry(bits, g) ==>
              var r := WithAlignment(bits, g, alignment);
              r.Ok? ==>
                ValidGeometry(bits, r.value) && r.value.alignment == alignment && r.value.totalSize >= g.totalSize
  {
    Pow2IsPow2(0);
    ExactOrder(bits, total, minBlock);
    var c := Log2Ceil(minBlock);
    if c < bits {
      Pow2Monotone(c, bits);
      SnapValidates(bits, total, c);
      Pow2IsPow2(c);
      SnapFits(bits, total, c);
    }
    forall g | ValidGeometry(bits, g)
      ensures var r := WithAlignment(bits, g, alignment);
              r.Ok? ==>
                ValidGeometry(bits, r.value) && r.value.alignment == alignment && r.value.totalSize >= g.totalSize
    {
      AlignedValid(bits, g, alignment);
    }
  }

  lemma ExactOrder(bits: nat, total: nat, minBlock: nat)
    ensures Validate(bits, total, minBlock).Some? ==> Validate(bits, total, minBlock).value < bits
  {
  }

  lemma SnapFits(bits: nat, hint: nat, m: nat)
    requires m < bits && 0 < hint < Pow2(bits)
    ensures var r := Snap(bits, hint, Pow2(m)); r.Ok? ==> 0 < r.value.0 < Pow2(bits) && r.value.1 < bits
  {
    SnapValidates(bits, hint, m);
    var r := Snap(bits, hint, Pow2(m));
    if r.Ok? { Pow2Monotone(m + r.value.1, bits); }
  }

  lemma AlignedValid(bits: nat, g: BuddyGeometry, alignment: nat)
    requires ValidGeometry(bits, g) && 0 < alignment < Pow2(bits)
    ensures var r := WithAlignment(bits, g, alignment);
            r.Ok? ==> ValidGeometry(bits, r.value) && r.value.alignment == alignment && r.value.totalSize >= g.totalSize
  {
    IsPow2Exact(alignment);
    if IsPow2(alignment) && alignment > g.minBlockSize && g.capCapacity {
      var a := TrailingZeros(alignment);
      if a >= bits { Pow2Monotone(bits, a); }
      SnapValidates(bits, g.totalSize, a);
      SnapFits(bits, g.totalSize, a);
    }
  }

  /** `exact` takes the sizes as they are, and succeeds exactly for `2^(m+k)` over `2^m`. */
  lemma ExactIff(bits: nat, total: nat, minBlock: nat, k: nat)
    requires 0 < total < Pow2(bits) && 0 < minBlock < Pow2(bits)
    ensures var r := Exact(bits, total, minBlock);
            && (r == Ok(BuddyGeometry(total, minBlock, k, 1, false)) <==>
                  exists m: nat :: IsShape(total, minBlock, k, m))
            && (r.Err? ==> r.error == InvalidGeometry)
  {
    hide Pow2, Validate, IsShape;
    ValidateIff(bits, total, minBlock, k);
  }

  /** `nearest` rounds the minimum block up to the least power of two `2^m`, and the total to
      the least `2^(m+k)`; it fails exactly when that does not fit the word. */
  lemma NearestIs(bits: nat, total: nat, minBlock: nat, m: nat, k: nat)
    requires 0 < total < Pow2(bits) && 0 < minBlock < Pow2(bits)
    requires LeastOrder(0, minBlock, m) && LeastOrder(m, total, k)
    ensures Nearest(bits, total, minBlock)
            == if m + k < bits then Ok(BuddyGeometry(Pow2(m + k), Pow2(m), k, 1, true)) else Err(SizeOverflow)
  {
    hide Pow2, Snap, Log2Ceil;
    LeastIsLog2Ceil(minBlock, m);
    if m < bits { SnapIsLeast(bits, total, m, k); }
  }

  lemma LeastIsLog2Ceil(n: nat, m: nat)
    requires LeastOrder(0, n, m)
    ensures m == Log2Ceil(n)
  {
    hide Pow2;
    var c := Log2Ceil(n);
    if c < m { Pow2Monotone(c, m - 1); }
    if m < c { Pow2Monotone(m, c - 1); }
  }

  /** `with_alignment` of a valid geometry: an alignment that is no power of two is refused, one
      within the minimum block is only recorded, and a larger one is refused for exact sizes
      and otherwise becomes the minimum block, with the least total that covers the old one. */
  lemma WithAlignmentIs(bits: nat, g: BuddyGeometry, alignment: nat, a: nat, k: nat)
    requires ValidGeometry(bits, g) && 0 < alignment < Pow2(bits)
    requires IsPow2(alignment) ==> alignment == Pow2(a) && LeastOrder(a, g.totalSize, k)
    ensures WithAlignment(bits, g, alignment)
            == if !IsPow2(alignment) then Err(InvalidAlignment)
               else if alignment <= g.minBlockSize
               then Ok(BuddyGeometry(g.totalSize, g.minBlockSize, g.maxOrder, alignment, g.capCapacity))
               else if !g.capCapacity then Err(InvalidGeometry)
               else if a + k < bits then Ok(BuddyGeometry(Pow2(a + k), alignment, k, alignment, true))
               else Err(SizeOverflow)
  {
    hide Pow2, Snap, Validate, IsPow2, LeastOrder;
    if IsPow2(alignment) && alignment > g.minBlockSize && g.capCapacity {
      if a >= bits { Pow2Monotone(bits, a); }
      SnapIsLeast(bits, g.totalSize, a, k);
    }
  }

  /** The alignment of a valid geometry divides the offset of every block. */
  lemma AlignmentDividesOffsets(bits: nat, g: BuddyGeometry, order: nat, idx: nat)
    requires ValidGeometry(bits, g)
    ensures (idx * (g.minBlockSize * Pow2(order))) % g.alignment == 0
  {
    var m := ValidateShape(bits, g.totalSize, g.minBlockSize, g.maxOrder);
    IsPow2Exact(g.alignment);
    var a := TrailingZeros(g.alignment);
    if a > m { Pow2Monotone(m, a); }
    Pow2Add(m - a, a);
    MultipleOffset(idx, Pow2(m - a), g.alignment, Pow2(order));
  }

  lemma MultipleOffset(idx: nat, c: nat, alignment: nat, p: nat)
    requires alignment > 0
    ensures (idx * ((c * alignment) * p)) % alignment == 0
  {
    var q := idx * (c * p);
    assert (c * alignment) * p == (c * p) * alignment;
    assert idx * ((c * p) * alignment) == q * alignment;
    DivModUnique(q, 0, alignment, q * alignment);
  }

  // ----- fixed arena sizes

  /** `align_down` (src/spec.rs:59-61). */
  function AlignDown(bits: nat, v: nat, alignment: nat): nat
    requires 0 < alignment < Pow2(bits)
  {
    And(v, Not(bits, alignment - 1))
  }

  lemma {:induction false} AlignDownIs(bits: nat, v: nat, a: nat)
    requires v < Pow2(bits) && Pow2(a) < Pow2(bits)
    ensures AlignDown(bits, v, Pow2(a)) == v - v % Pow2(a)
  {
    AndLowMask(v, a);
    MaskSplits(bits, v, Pow2(a) - 1);
  }

  /** The bits under a mask and the bits outside it add up to the word. */
  lemma {:induction false} MaskSplits(bits: nat, v: nat, mask: nat)
    requires v < Pow2(bits) && mask < Pow2(bits)
    ensures And(v, Not(bits, mask)) + And(v, mask) == v
  {
    var x, y := And(v, Not(bits, mask)), And(v, mask);
    forall i: nat ensures Bit(x, i) <==> Bit(v, i) && !Bit(y, i) {
      AndBit(v, Not(bits, mask), i);
      NotBit(bits, mask, i);
      AndBit(v, mask, i);
      if i >= bits { HighBitsClear(bits, v, i); }
    }
    forall i: nat ensures Bit(y, i) ==> Bit(v, i) { AndBit(v, mask, i); }
    DisjointSum(bits, x, y, v);
  }

  /** A word split into disjoint bits is their sum. */
  lemma {:induction false} DisjointSum(w: nat, x: nat, y: nat, z: nat)
    requires z < Pow2(w) && x <= z && y <= z
    requires forall i: nat :: Bit(x, i) <==> Bit(z, i) && !Bit(y, i)
    requires forall i: nat :: Bit(y, i) ==> Bit(z, i)
    ensures x + y == z
  {
    if w > 0 {
      assert Bit(x, 0) <==> Bit(z, 0) && !Bit(y, 0);
      assert Bit(y, 0) ==> Bit(z, 0);
      forall i: nat ensures Bit(x / 2, i) <==> Bit(z / 2, i) && !Bit(y / 2, i) {
        assert Bit(x, i + 1) <==> Bit(z, i + 1) && !Bit(y, i + 1);
      }
      forall i: nat | Bit(y / 2, i) ensures Bit(z / 2, i) { assert Bit(y, i + 1); }
      DisjointSum(w - 1, x / 2, y / 2, z / 2);
    }
  }

  /** `align_up` (src/arena.rs:844-847). */
  function AlignUp(bits: nat, v: nat, alignment: nat): Option<nat>
    requires 0 < alignment < Pow2(bits)
  {
    match CheckedAdd(bits, v, alignment - 1)
    case None => None
    case Some(rounded) => Some(And(rounded, Not(bits, alignment - 1)))
  }

  /** Rounding up gives the least multiple at or above the value and fails exactly when
      that multiple does not fit. */
  lemma AlignUpLeast(bits: nat, v: nat, a: nat, c: nat)
    requires v < Pow2(bits) && a < bits && Pow2(a) < Pow2(bits)
    requires c % Pow2(a) == 0 && v <= c < v + Pow2(a)
    ensures AlignUp(bits, v, Pow2(a)) == if c < Pow2(bits) then Some(c) else None
  {
    hide Pow2, And, Not;
    if c < Pow2(bits) {
      FitsRounded(bits, v, a, c);
      RoundsTo(v, Pow2(a), c);
      AlignDownIs(bits, v + Pow2(a) - 1, a);
    }
  }

  lemma FitsRounded(bits: nat, v: nat, a: nat, c: nat)
    requires a < bits && c % Pow2(a) == 0 && v <= c < v + Pow2(a) && c < Pow2(bits)
    ensures v + Pow2(a) - 1 < Pow2(bits)
  {
    hide Pow2;
    Pow2Add(bits - a, a);
    DivModUnique(Pow2(bits - a), 0, Pow2(a), Pow2(bits));
    NextMultiple(c, Pow2(bits), Pow2(a));
  }

  lemma RoundsTo(v: nat, p: nat, c: nat)
    requires p > 0 && c % p == 0 && v <= c < v + p
    ensures (v + p - 1) % p == v + p - 1 - c
  {
    DivModSplit(c, p);
    DivModUnique(c / p, v + p - 1 - c, p, v + p - 1);
  }

  lemma NextMultiple(c: nat, n: nat, p: nat)
    requires p > 0 && c % p == 0 && n % p == 0 && c < n
    ensures c + p <= n
  {
    DivModSplit(c, p);
    DivModSplit(n, p);
    MultipleAbove(n / p, c / p, p);
  }

  datatype SlotSpec = Count(count: nat) | Size(size: nat)

  /** `SlotSpec::resolve` (src/spec.rs:27-56). */
  function ResolveSlots(bits: nat, spec: SlotSpec, blockLen: nat, alignment: nat): Result<(nat, nat)>
    requires 0 < alignment < Pow2(bits)
    requires match spec case Count(c) => c > 0 case Size(s) => s > 0
  {
    match spec
    case Count(count) =>
      var aligned := AlignDown(bits, blockLen / count, alignment);
      if aligned == 0 then Err(ZeroUsableSlots) else Ok((count, aligned))
    case Size(size) =>
      var aligned := AlignDown(bits, size, alignment);
      if aligned == 0 then Err(ZeroUsableSlots)
      else if aligned > blockLen then Err(SlotSizeExceedsBacking)
      else if blockLen / aligned == 0 then Err(ZeroUsableSlots)
      else Ok((blockLen / aligned, aligned))
  }

  /** `cap` is the largest multiple of the alignment of which `count` fit in the region. */
  ghost predicate LargestCapacity(blockLen: nat, count: nat, alignment: nat, cap: nat)
    requires alignment > 0
  {
    && cap % alignment == 0
    && count * cap <= blockLen
    && forall c: nat :: c > cap && c % alignment == 0 ==> count * c > blockLen
  }

  lemma ResolveCountLargest(bits: nat, count: nat, blockLen: nat, a: nat)
    requires count > 0 && blockLen < Pow2(bits) && Pow2(a) < Pow2(bits)
    ensures var r := ResolveSlots(bits, Count(count), blockLen, Pow2(a));
            if r.Ok? then r.value.0 == count && r.value.1 > 0 && LargestCapacity(blockLen, count, Pow2(a), r.value.1)
            else r == Err(ZeroUsableSlots) && LargestCapacity(blockLen, count, Pow2(a), 0)
  {
    QuotientBelow(blockLen, count);
    AlignDownIs(bits, blockLen / count, a);
    var raw := blockLen / count;
    DivModSplit(raw, Pow2(a));
    LargestAligned(blockLen, count, Pow2(a), raw, raw - raw % Pow2(a));
  }

  lemma QuotientBelow(n: nat, d: nat)
    requires d > 0
    ensures n / d <= n
  {
    DivModSplit(n, d);
    ScaleUp(n / d, d);
  }

  lemma ScaleUp(q: nat, d: nat)
    requires d > 0
    ensures q <= q * d
  {
  }

  lemma LargestAligned(blockLen: nat, count: nat, p: nat, raw: nat, cap: nat)
    requires count > 0 && p > 0 && raw == blockLen / count && cap == raw - raw % p
    ensures LargestCapacity(blockLen, count, p, cap)
  {
    DivModSplit(blockLen, count);
    RoundedDown(raw, p, cap);
    ScaleMonotone(count, cap, raw);
    forall c: nat | c > cap && c % p == 0 ensures count * c > blockLen {
      NextAligned(raw, p, c);
      MulGap(raw, c, count);
    }
  }

  lemma RoundedDown(raw: nat, p: nat, cap: nat)
    requires p > 0 && cap == raw - raw % p
    ensures cap <= raw && cap % p == 0
  {
    DivModSplit(raw, p);
    DivModUnique(raw / p, 0, p, cap);
  }

  /** A multiple above the value rounded down is above the value. */
  lemma NextAligned(raw: nat, p: nat, c: nat)
    requires p > 0 && c % p == 0 && c > raw - raw % p
    ensures c > raw
  {
    DivModSplit(raw, p);
    DivModSplit(c, p);
    MultipleAbove(c / p, raw / p, p);
  }

  lemma MultipleAbove(x: nat, q: nat, p: nat)
    requires x * p > q * p
    ensures x * p >= q * p + p
  {
    if x < q { MulGap(x, q, p); }
    if x > q { MulGap(q, x, p); }
  }

  /** A slot size keeps the aligned size and as many slots as fit. */
  lemma ResolveSizeFits(bits: nat, size: nat, blockLen: nat, a: nat)
    requires 0 < size < Pow2(bits) && blockLen < Pow2(bits) && Pow2(a) < Pow2(bits)
    ensures var r := ResolveSlots(bits, Size(size), blockLen, Pow2(a));
            var aligned := size - size % Pow2(a);
            && (r.Err? <==> aligned == 0 || aligned > blockLen)
            && (r.Err? ==> r.error == if aligned == 0 then ZeroUsableSlots else SlotSizeExceedsBacking)
            && (r.Ok? ==> r.value.1 == aligned && r.value.0 > 0
                          && r.value.0 * aligned <= blockLen < r.value.0 * aligned + aligned)
  {
    AlignDownIs(bits, size, a);
    var aligned := size - size % Pow2(a);
    if 0 < aligned <= blockLen { QuotientPositive(blockLen, aligned); }
  }

  lemma QuotientPositive(n: nat, d: nat)
    requires 0 < d <= n
    ensures n / d > 0 && (n / d) * d <= n < (n / d) * d + d
  {
    DivModSplit(n, d);
  }

  // ----- BuddyHint

  /** `prev_power_of_two` (src/spec.rs:109-114). */
  function PrevPow2(n: nat): (r: nat)
    ensures n > 0 ==> r <= n < 2 * r
    ensures n == 0 ==> r == 0
  {
    if n == 0 then 0 else if n == 1 then 1 else 2 * PrevPow2(n / 2)
  }

  lemma {:induction false} PrevPow2IsPow2(n: nat)
    requires n > 0
    ensures exists k: nat :: PrevPow2(n) == Pow2(k)
  {
    if n == 1 {
      assert PrevPow2(n) == Pow2(0);
    } else {
      PrevPow2IsPow2(n / 2);
      var k: nat :| PrevPow2(n / 2) == Pow2(k);
      assert PrevPow2(n) == Pow2(k + 1);
    }
  }

  /** `x << k` of a release build: the shift count is reduced modulo the width and the
      bits that leave the word are lost. */
  function Shl(bits: nat, x: nat, k: nat): nat
    requires bits > 0
  {
    (x * Pow2(k % bits)) % Pow2(bits)
  }

  /** The block size the hint starts from (src/spec.rs:82-91). */
  function HintBlock(bits: nat, min: nat, blockLen: nat): Result<nat>
  {
    var up := NextPow2(bits, min);
    if up > blockLen then
      var down := PrevPow2(min);
      if down == 0 || down > blockLen then Err(ZeroUsableSlots) else Ok(down)
    else Ok(up)
  }

  lemma HintBlockIs(bits: nat, min: nat, blockLen: nat)
    requires bits > 0 && 0 < min <= Pow2(bits - 1)
    ensures var r := HintBlock(bits, min, blockLen);
            && (r.Err? <==> PrevPow2(min) > blockLen)
            && (r.Err? ==> r == Err(ZeroUsableSlots))
            && (r.Ok? ==> r.value <= blockLen && exists m: nat :: r.value == Pow2(m))
            && (r.Ok? ==> if r.value >= min then r.value < 2 * min else min < 2 * r.value && blockLen < 2 * r.value)
  {
    Log2CeilLeast(min, bits - 1);
    PrevPow2IsPow2(min);
    var c := Log2Ceil(min);
    assert PrevPow2(min) <= min <= Pow2(c) && Pow2(c) < 2 * min;
    if Pow2(c) > blockLen { NoPow2Between(min, c); }
  }

  /** There is no power of two between the one below a number and the one above it. */
  lemma NoPow2Between(min: nat, c: nat)
    requires min > 0 && c == Log2Ceil(min)
    ensures Pow2(c) <= 2 * PrevPow2(min)
  {
    PrevPow2IsPow2(min);
    var k: nat :| PrevPow2(min) == Pow2(k);
    Pow2Step(k);
    Log2CeilLeast(min, k + 1);
    Pow2Monotone(c, k + 1);
  }

  lemma ShlPow2(bits: nat, m: nat, k: nat)
    requires m + k < bits
    ensures Shl(bits, Pow2(m), k) == Pow2(m + k)
  {
    DivModUnique(0, k, bits, k);
    Pow2Add(m, k);
    Pow2Monotone(m + k, bits);
    DivModUnique(0, Pow2(m + k), Pow2(bits), Pow2(m + k));
  }

  /** `BuddyHint::resolve` (src/spec.rs:79-106). The region is a Rust allocation, so its
      length is below half the word range. The loop ends only for hints within half the
      word range (`HintLoopEndsIff`). On success the usable size is the largest
      `minBlock * 2^k` that fits: more than half the region. */
  method ResolveHint(bits: nat, min: nat, blockLen: nat) returns (r: Result<(nat, nat)>)
    requires bits > 0 && 0 < min <= Pow2(bits - 1) && blockLen < Pow2(bits - 1)
    ensures r.Err? <==> PrevPow2(min) > blockLen
    ensures r.Err? ==> r == Err(ZeroUsableSlots)
    ensures r.Ok? ==> HintBlock(bits, min, blockLen) == Ok(r.value.0)
    ensures r.Ok? ==> var usable := r.value.0 * Pow2(r.value.1); usable <= blockLen < 2 * usable
    ensures r.Ok? ==> Validate(bits, r.value.0 * Pow2(r.value.1), r.value.0) == Some(r.value.1)
  {
    hide Pow2, Log2Ceil, HintBlock, Validate, PrevPow2, Shl;
    HintBlockIs(bits, min, blockLen);
    var block := HintBlock(bits, min, blockLen);
    if block.Err? { return Err(block.error); }
    ghost var m: nat :| block.value == Pow2(m);
    var maxOrder := 0;
    if m >= bits - 1 { Pow2Monotone(bits - 1, m); }
    ShlPow2(bits, m, 1);
    while HintGuard(bits, block.value, blockLen, maxOrder)
      invariant m + maxOrder + 1 < bits && Pow2(m + maxOrder) <= blockLen
      invariant Shl(bits, block.value, maxOrder + 1) == Pow2(m + maxOrder + 1)
      decreases bits - maxOrder
    {
      maxOrder := maxOrder + 1;
      assert m + maxOrder != bits - 1;
      ShlPow2(bits, m, maxOrder + 1);
    }
    Pow2Step(m + maxOrder);
    Pow2Add(m, maxOrder);
    Pow2Monotone(m + maxOrder, bits);
    ValidateAccepts(bits, m, maxOrder);
    return Ok((block.value, maxOrder));
  }

  /** The loop guard of the hint after `k` iterations. */
  predicate HintGuard(bits: nat, block: nat, blockLen: nat, k: nat)
    requires bits > 0
  {
    Shl(bits, block, k + 1) <= blockLen
  }

  /** For a region of legal length whose hint is not refused, the loop has an exit exactly
      when the hint is at most half the word range. Above it the rounded block wraps to
      zero and the guard never fails. */
  lemma HintLoopEndsIff(bits: nat, min: nat, blockLen: nat)
    requires bits > 0 && 0 < min < Pow2(bits) && blockLen < Pow2(bits - 1)
    requires HintBlock(bits, min, blockLen).Ok?
    ensures var block := HintBlock(bits, min, blockLen).value;
            (exists k: nat :: !HintGuard(bits, block, blockLen, k)) <==> min <= Pow2(bits - 1)
  {
    var block := HintBlock(bits, min, blockLen).value;
    if min <= Pow2(bits - 1) {
      HintBlockIs(bits, min, blockLen);
      var m: nat :| block == Pow2(m);
      if m >= bits - 1 { Pow2Monotone(bits - 1, m); }
      var k := bits - 2 - m;
      ShlPow2(bits, m, k + 1);
      assert !HintGuard(bits, block, blockLen, k);
    } else {
      Log2CeilLeast(min, bits - 1);
      assert block == 0;
      forall k: nat ensures HintGuard(bits, block, blockLen, k) {
        DivModUnique(0, 0, Pow2(bits), 0);
      }
    }
  }
}
