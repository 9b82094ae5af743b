/** `AtomicBitmap` (src/bitmap.rs): a word-packed set of free slots with a rotating cursor.

    The methods run one at a time here; what interleaved atomic steps do is the
    subject of module `BuddyInterleaving`. Every method is specified on the plain set
    of slots the words denote.
 */
module Bitmaps {
  import opened Words

  datatype Option<+T> = None | Some(value: T)

  /** The word of a slot, and its bit in that word. */
  function WordOf(bits: nat, s: nat): nat
    requires bits > 0
  {
    s / bits
  }

  function BitOf(bits: nat, s: nat): (b: nat)
    requires bits > 0
    ensures b < bits
  {
    s % bits
  }

  /** Whether slot `s` is set in the packed words. */
  predicate Has(bits: nat, ws: seq<nat>, s: nat)
    requires bits > 0
  {
    WordOf(bits, s) < |ws| && Bit(ws[WordOf(bits, s)], BitOf(bits, s))
  }

  ghost function Slots(bits: nat, n: nat, ws: seq<nat>): set<nat>
    requires bits > 0
  {
    set s: nat | s < n && Has(bits, ws, s)
  }

  ghost function AllSlots(n: nat): (r: set<nat>)
    ensures forall s: nat :: s in r <==> s < n
    ensures |r| == n
  {
    if n == 0 then {} else AllSlots(n - 1) + {n - 1}
  }

  /** Every word fits its width and no bit is set at or beyond slot `n`. */
  ghost predicate Packed(bits: nat, n: nat, ws: seq<nat>)
    requires bits > 0
  {
    && (forall w :: 0 <= w < |ws| ==> ws[w] < Pow2(bits))
    && (forall s: nat :: Has(bits, ws, s) ==> s < n)
  }

  lemma SlotOf(bits: nat, w: nat, i: nat)
    requires i < bits
    ensures WordOf(bits, w * bits + i) == w && BitOf(bits, w * bits + i) == i
  {
    DivModUnique(w, i, bits, w * bits + i);
  }

  lemma SlotSplit(bits: nat, s: nat)
    requires bits > 0
    ensures s == WordOf(bits, s) * bits + BitOf(bits, s)
  {
    DivModSplit(s, bits);
  }

  /** Slots below `n` live in the words that cover `n`. */
  lemma WordInRange(bits: nat, s: nat, n: nat, words: nat)
    requires bits > 0 && s < n <= words * bits
    ensures WordOf(bits, s) < words
  {
    hide WordOf, BitOf;
    SlotSplit(bits, s);
    if WordOf(bits, s) >= words {
      if WordOf(bits, s) > words { MulGap(words, WordOf(bits, s), bits); }
    }
  }

  /** The words are all zero exactly when they denote the empty set. */
  lemma EmptyIffZero(bits: nat, n: nat, ws: seq<nat>)
    requires bits > 0 && Packed(bits, n, ws)
    ensures Slots(bits, n, ws) == {} <==> forall w :: 0 <= w < |ws| ==> ws[w] == 0
  {
    hide WordOf, BitOf;
    if forall w :: 0 <= w < |ws| ==> ws[w] == 0 {
      forall s: nat ensures !Has(bits, ws, s) {
        ZeroBits(BitOf(bits, s));
      }
    } else {
      var w :| 0 <= w < |ws| && ws[w] != 0;
      var i := NonzeroHasBit(bits, ws[w]);
      SlotOf(bits, w, i);
      assert w * bits + i in Slots(bits, n, ws) by { assert Has(bits, ws, w * bits + i); }
    }
  }

  /** How many words the scan passes before it reaches word `w`. */
  function ScanDistance(n: nat, start: nat, w: nat): nat
    requires start < n && w < n
  {
    if w >= start then w - start else w + n - start
  }

  /** The scan from `start` reaches word `w` at its distance and not before. */
  lemma ScanReaches(n: nat, start: nat, w: nat, i: nat)
    requires start < n && w < n && i < n
    ensures ScanDistance(n, start, w) < n
    ensures (start + i) % n == w <==> i == ScanDistance(n, start, w)
  {
    ModOnce(start + i, n);
  }

  /** `s` is the slot an uncontended scan from word `start` takes: the lowest bit of
      the first nonempty word in cyclic order. */
  ghost predicate IsPick(bits: nat, n: nat, start: nat, members: set<nat>, s: nat)
    requires bits > 0 && start < n
  {
    && s in members && WordOf(bits, s) < n
    && forall t :: t in members && WordOf(bits, t) < n ==>
         || ScanDistance(n, start, WordOf(bits, s)) < ScanDistance(n, start, WordOf(bits, t))
         || (WordOf(bits, s) == WordOf(bits, t) && s <= t)
  }

  /** The lowest slot of the word at distance `i`, all nearer words being zero, is the pick. */
  lemma PickFound(bits: nat, n: nat, ws: seq<nat>, start: nat, i: nat, s: nat)
    requires bits > 0 && start < |ws| && s in Slots(bits, n, ws)
    requires ScanDistance(|ws|, start, WordOf(bits, s)) == i
    requires forall w :: 0 <= w < |ws| && ScanDistance(|ws|, start, w) < i ==> ws[w] == 0
    requires forall t :: t in Slots(bits, n, ws) && WordOf(bits, t) == WordOf(bits, s) ==> s <= t
    ensures IsPick(bits, |ws|, start, Slots(bits, n, ws), s)
  {
    hide Has, ScanDistance, WordOf, BitOf;
    var members := Slots(bits, n, ws);
    SlotHas(bits, n, ws, s);
    forall t | t in members && WordOf(bits, t) < |ws|
      ensures || ScanDistance(|ws|, start, WordOf(bits, s)) < ScanDistance(|ws|, start, WordOf(bits, t))
              || (WordOf(bits, s) == WordOf(bits, t) && s <= t)
    {
      SlotHas(bits, n, ws, t);
      NotNearer(bits, ws, start, i, t);
      if ScanDistance(|ws|, start, WordOf(bits, t)) == i {
        SameDistance(|ws|, start, WordOf(bits, s), WordOf(bits, t));
      }
    }
  }

  /** A member is a set bit of some word. */
  lemma SlotHas(bits: nat, n: nat, ws: seq<nat>, s: nat)
    requires bits > 0 && s in Slots(bits, n, ws)
    ensures s < n && Has(bits, ws, s) && WordOf(bits, s) < |ws|
  {
    hide Bit, WordOf, BitOf;
  }

  lemma NotNearer(bits: nat, ws: seq<nat>, start: nat, i: nat, t: nat)
    requires bits > 0 && start < |ws| && Has(bits, ws, t)
    requires forall w :: 0 <= w < |ws| && ScanDistance(|ws|, start, w) < i ==> ws[w] == 0
    ensures i <= ScanDistance(|ws|, start, WordOf(bits, t))
  {
    hide Bit, WordOf, BitOf;
    var w := WordOf(bits, t);
    if ScanDistance(|ws|, start, w) < i { ZeroBits(BitOf(bits, t)); }
  }

  lemma SameDistance(n: nat, start: nat, v: nat, w: nat)
    requires start < n && v < n && w < n && ScanDistance(n, start, v) == ScanDistance(n, start, w)
    ensures v == w
  {
  }

  lemma PickUnique(bits: nat, n: nat, start: nat, members: set<nat>, s: nat, t: nat)
    requires bits > 0 && start < n
    requires IsPick(bits, n, start, members, s) && IsPick(bits, n, start, members, t)
    ensures s == t
  {
    hide WordOf, BitOf;
    assert s in members && t in members;
  }

  /** The word with ones from bit `startBit` up to, not including, bit `endBit` (src/bitmap.rs:254-263). */
  function RangeMask(bits: nat, startBit: nat, endBit: nat): (r: nat)
    requires bits > 0 && startBit <= endBit <= bits
    ensures r < Pow2(bits)
  {
    var full := LowMask(bits, endBit);
    assert WrappingShl1(bits, startBit) - 1 < Pow2(bits) by { Pow2Monotone(BitOf(bits, startBit), bits); }
    And(full, Not(bits, WrappingShl1(bits, startBit) - 1))
  }

  /** `Word::MAX` for a whole word, `(1 << k) - 1` otherwise. */
  function LowMask(bits: nat, k: nat): (r: nat)
    requires bits > 0 && k <= bits
    ensures r == Pow2(k) - 1 && r < Pow2(bits)
  {
    Pow2Monotone(k, bits);
    if k >= bits then Pow2(bits) - 1 else WrappingShl1(bits, k) - 1
  }

  /** `!((1 << k) - 1)`: the bits from `k` up. */
  function HighMask(bits: nat, k: nat): (r: nat)
    requires k < bits
    ensures r < Pow2(bits)
  {
    Pow2Monotone(k, bits);
    Not(bits, WrappingShl1(bits, k) - 1)
  }

  lemma HighMaskBit(bits: nat, k: nat, i: nat)
    requires k < bits
    ensures Bit(HighMask(bits, k), i) <==> k <= i < bits
  {
    Pow2Monotone(k, bits);
    NotBit(bits, Pow2(k) - 1, i);
    LowMaskBit(k, i);
  }

  lemma RangeMaskBit(bits: nat, startBit: nat, endBit: nat, i: nat)
    requires startBit <= endBit <= bits && startBit < bits
    ensures Bit(RangeMask(bits, startBit, endBit), i) <==> startBit <= i < endBit
  {
    HighMaskBit(bits, startBit, i);
    LowMaskBit(endBit, i);
    AndBit(LowMask(bits, endBit), HighMask(bits, startBit), i);
  }

  ghost predicate Covers(bits: nat, x: nat, mask: nat)
  {
    forall i: nat :: i < bits && Bit(mask, i) ==> Bit(x, i)
  }

  /** A word contains a mask exactly when it contains each of the mask's bits. */
  lemma MaskedEqual(bits: nat, x: nat, mask: nat)
    requires x < Pow2(bits) && mask < Pow2(bits)
    ensures And(x, mask) == mask <==> Covers(bits, x, mask)
  {
    forall i: nat ensures Bit(And(x, mask), i) <==> Bit(x, i) && Bit(mask, i) { AndBit(x, mask, i); }
    if Covers(bits, x, mask) {
      SameBitsSameWord(bits, And(x, mask), mask);
    }
  }

  lemma FullMask(bits: nat, x: nat)
    requires x < Pow2(bits)
    ensures And(x, Pow2(bits) - 1) == x
  {
    AndLowMask(x, bits);
    DivModUnique(0, x, Pow2(bits), x);
  }

  /** Testing a word against a one-bit mask. */
  lemma SingleBit(bits: nat, x: nat, b: nat)
    requires x < Pow2(bits) && b < bits
    ensures Pow2(b) < Pow2(bits)
    ensures And(x, Pow2(b)) != 0 <==> Bit(x, b)
  {
    Pow2Monotone(b, bits);
    AndBit(x, Pow2(b), b);
    Pow2Bit(b, b);
    ZeroBits(b);
    if And(x, Pow2(b)) != 0 {
      var i := NonzeroHasBit(bits, And(x, Pow2(b)));
      AndBit(x, Pow2(b), i);
      Pow2Bit(b, i);
    }
  }

  lemma CeilCovers(n: nat, d: nat, words: nat)
    requires d > 0 && (n + d - 1) / d <= words
    ensures n <= words * d
  {
    var q := (n + d - 1) / d;
    DivModSplit(n + d - 1, d);
    if q < words { MulGap(q, words, d); }
  }

  lemma CeilLeast(n: nat, d: nat, words: nat)
    requires d > 0 && n <= words * d
    ensures (n + d - 1) / d <= words
  {
    var q := (n + d - 1) / d;
    DivModSplit(n + d - 1, d);
    if words < q { MulGap(words, q, d); }
  }

  lemma BitIsSlot(bits: nat, ws: seq<nat>, w: nat, i: nat)
    requires i < bits && w < |ws| && Bit(ws[w], i)
    ensures Has(bits, ws, w * bits + i)
  {
    hide Bit, WordOf, BitOf;
    SlotOf(bits, w, i);
  }

  /** A word past those that hold slots is zero. */
  lemma PaddingZero(bits: nat, n: nat, ws: seq<nat>, w: nat)
    requires bits > 0 && Packed(bits, n, ws) && (n + bits - 1) / bits <= w < |ws|
    ensures ws[w] == 0
  {
    hide Bit, Pow2, WordOf, BitOf;
    CeilCovers(n, bits, w);
    if ws[w] != 0 {
      var i := NonzeroHasBit(bits, ws[w]);
      BitIsSlot(bits, ws, w, i);
      assert false;
    }
  }

  lemma SameSlot(bits: nat, s: nat, t: nat)
    requires bits > 0 && WordOf(bits, s) == WordOf(bits, t) && BitOf(bits, s) == BitOf(bits, t)
    ensures s == t
  {
    hide WordOf, BitOf;
    SlotSplit(bits, s);
    SlotSplit(bits, t);
  }

  lemma ClearBit(bits: nat, x: nat, b: nat, i: nat)
    requires Pow2(b) < Pow2(bits) && i < bits
    ensures Bit(And(x, Not(bits, Pow2(b))), i) <==> Bit(x, i) && i != b
  {
    AndBit(x, Not(bits, Pow2(b)), i);
    NotBit(bits, Pow2(b), i);
    Pow2Bit(b, i);
  }

  /** What construction stores in word `w`. */
  ghost predicate InitialWord(bits: nat, n: nat, initiallyFree: bool, w: nat, x: nat)
  {
    && x < Pow2(bits)
    && forall i: nat :: i < bits ==> (Bit(x, i) <==> initiallyFree && w * bits + i < n)
  }

  /** The word pushed by the construction loop (src/bitmap.rs:60-73). */
  function InitialFor(bits: nat, n: nat, initiallyFree: bool, w: nat): (x: nat)
    requires bits > 0
    ensures InitialWord(bits, n, initiallyFree, w, x)
  {
    var startBit := w * bits;
    assert forall i: nat :: !Bit(0, i) by { forall i: nat ensures !Bit(0, i) { ZeroBits(i); } }
    if startBit >= n then 0 else
      var validBits := if n - startBit < bits then n - startBit else bits;
      var freeMask := LowMask(bits, validBits);
      assert forall i: nat :: Bit(freeMask, i) <==> i < validBits by {
        forall i: nat ensures Bit(freeMask, i) <==> i < validBits { LowMaskBit(validBits, i); }
      }
      if initiallyFree then freeMask else 0
  }

  lemma InitialWords(bits: nat, n: nat, initiallyFree: bool, ws: seq<nat>)
    requires bits > 0 && n <= |ws| * bits
    requires forall w :: 0 <= w < |ws| ==> InitialWord(bits, n, initiallyFree, w, ws[w])
    ensures Packed(bits, n, ws)
    ensures Slots(bits, n, ws) == if initiallyFree then AllSlots(n) else {}
  {
    hide WordOf, BitOf;
    forall s: nat
      ensures Has(bits, ws, s) <==> initiallyFree && s < n
    {
      SlotSplit(bits, s);
      if s < n { WordInRange(bits, s, n, |ws|); }
      if WordOf(bits, s) < |ws| { assert InitialWord(bits, n, initiallyFree, WordOf(bits, s), ws[WordOf(bits, s)]); }
    }
  }

  /** `fetch_and(!(1 << b))` removes exactly its slot. */
  lemma ClearSlot(bits: nat, n: nat, ws: seq<nat>, slot: nat, x: nat)
    requires bits > 0 && Packed(bits, n, ws) && slot < n && WordOf(bits, slot) < |ws|
    requires Pow2(BitOf(bits, slot)) < Pow2(bits)
    requires x == And(ws[WordOf(bits, slot)], Not(bits, Pow2(BitOf(bits, slot))))
    ensures Packed(bits, n, ws[WordOf(bits, slot) := x])
    ensures Slots(bits, n, ws[WordOf(bits, slot) := x]) == Slots(bits, n, ws) - {slot}
  {
    hide And, Not, Pow2, Bit, WordOf, BitOf;
    var w, b := WordOf(bits, slot), BitOf(bits, slot);
    forall i: nat | i < bits ensures Bit(x, i) <==> Bit(ws[w], i) && i != b { ClearBit(bits, ws[w], b, i); }
    WithoutSlot(bits, n, ws, slot, x);
  }

  lemma WithoutSlot(bits: nat, n: nat, ws: seq<nat>, slot: nat, x: nat)
    requires bits > 0 && Packed(bits, n, ws) && slot < n && WordOf(bits, slot) < |ws| && x < Pow2(bits)
    requires forall i: nat :: i < bits ==> (Bit(x, i) <==> Bit(ws[WordOf(bits, slot)], i) && i != BitOf(bits, slot))
    ensures Packed(bits, n, ws[WordOf(bits, slot) := x])
    ensures Slots(bits, n, ws[WordOf(bits, slot) := x]) == Slots(bits, n, ws) - {slot}
  {
    hide Has, Pow2, WordOf, BitOf;
    var ws' := ws[WordOf(bits, slot) := x];
    forall s: nat ensures Has(bits, ws', s) <==> Has(bits, ws, s) && s != slot {
      SlotIff(bits, s, slot);
      OneWord(bits, ws, slot, x, s);
      OneWord(bits, ws, slot, ws[WordOf(bits, slot)], s);
      assert ws[WordOf(bits, slot) := ws[WordOf(bits, slot)]] == ws;
    }
  }

  /** Changing one word changes membership of its own slots only. */
  lemma OneWord(bits: nat, ws: seq<nat>, slot: nat, x: nat, s: nat)
    requires bits > 0 && WordOf(bits, slot) < |ws|
    ensures var ws' := ws[WordOf(bits, slot) := x];
            Has(bits, ws', s) <==>
              if WordOf(bits, s) == WordOf(bits, slot) then Bit(x, BitOf(bits, s)) else Has(bits, ws, s)
  {
    hide Bit, WordOf, BitOf;
  }

  lemma SlotIff(bits: nat, s: nat, slot: nat)
    requires bits > 0
    ensures BitOf(bits, s) < bits
    ensures WordOf(bits, s) == WordOf(bits, slot) && BitOf(bits, s) == BitOf(bits, slot) <==> s == slot
  {
    hide WordOf, BitOf;
    if WordOf(bits, s) == WordOf(bits, slot) && BitOf(bits, s) == BitOf(bits, slot) { SameSlot(bits, s, slot); }
  }

  /** `fetch_or(1 << b)` adds exactly its slot. */
  lemma SetSlot(bits: nat, n: nat, ws: seq<nat>, slot: nat, x: nat)
    requires bits > 0 && Packed(bits, n, ws) && slot < n && WordOf(bits, slot) < |ws|
    requires Pow2(BitOf(bits, slot)) < Pow2(bits)
    requires x == Or(ws[WordOf(bits, slot)], Pow2(BitOf(bits, slot)))
    ensures Packed(bits, n, ws[WordOf(bits, slot) := x])
    ensures Slots(bits, n, ws[WordOf(bits, slot) := x]) == Slots(bits, n, ws) + {slot}
  {
    hide Or, Pow2, Bit, WordOf, BitOf;
    var w, b := WordOf(bits, slot), BitOf(bits, slot);
    OrBelow(bits, ws[w], Pow2(b));
    forall i: nat ensures Bit(x, i) <==> Bit(ws[w], i) || i == b {
      OrBit(ws[w], Pow2(b), i);
      Pow2Bit(b, i);
    }
    WithSlot(bits, n, ws, slot, x);
  }

  lemma WithSlot(bits: nat, n: nat, ws: seq<nat>, slot: nat, x: nat)
    requires bits > 0 && Packed(bits, n, ws) && slot < n && WordOf(bits, slot) < |ws| && x < Pow2(bits)
    requires forall i: nat :: i < bits ==> (Bit(x, i) <==> Bit(ws[WordOf(bits, slot)], i) || i == BitOf(bits, slot))
    ensures Packed(bits, n, ws[WordOf(bits, slot) := x])
    ensures Slots(bits, n, ws[WordOf(bits, slot) := x]) == Slots(bits, n, ws) + {slot}
  {
    hide Has, Pow2, WordOf, BitOf;
    var ws' := ws[WordOf(bits, slot) := x];
    forall s: nat ensures Has(bits, ws', s) <==> Has(bits, ws, s) || s == slot {
      SlotIff(bits, s, slot);
      OneWord(bits, ws, slot, x, s);
      OneWord(bits, ws, slot, ws[WordOf(bits, slot)], s);
      assert ws[WordOf(bits, slot) := ws[WordOf(bits, slot)]] == ws;
    }
  }

  /** The words a nonempty range `start..end` touches, its first bit in the first of
      them and the number of its bits in the last. */
  datatype Span = Span(bits: nat, first: nat, last: nat, head: nat, tail: nat) {
    ghost predicate Valid()
    {
      head < bits && 0 < tail <= bits && first <= last && (first == last ==> head <= tail)
    }

    /** The mask the range operations use on word `w`. */
    function Mask(w: nat): (r: nat)
      requires Valid() && first <= w <= last
      ensures r < Pow2(bits)
    {
      if first == last then RangeMask(bits, head, tail)
      else if w == first then HighMask(bits, head)
      else if w < last then Pow2(bits) - 1
      else LowMask(bits, tail)
    }

    ghost predicate Inside(w: nat, i: nat)
    {
      && (w > first || (w == first && i >= head))
      && (w < last || (w == last && i < tail))
    }

    lemma MaskBit(w: nat, i: nat)
      requires Valid() && first <= w <= last && i < bits
      ensures Bit(Mask(w), i) <==> Inside(w, i)
    {
      if first == last {
        RangeMaskBit(bits, head, tail, i);
      } else if w == first {
        HighMaskBit(bits, head, i);
      } else if w < last {
        LowMaskBit(bits, i);
      } else {
        LowMaskBit(tail, i);
      }
    }

    ghost predicate Covered(ws: seq<nat>, w: nat)
      requires Valid() && first <= w <= last < |ws|
    {
      And(ws[w], Mask(w)) == Mask(w)
    }

    ghost predicate AllCovered(ws: seq<nat>, hi: nat)
      requires Valid() && hi <= last + 1 && last < |ws|
    {
      forall w :: first <= w < hi ==> Covered(ws, w)
    }
  }

  function SpanOf(bits: nat, start: nat, end: nat): (r: Span)
    requires bits > 0 && start < end
    ensures r.Valid() && r.bits == bits && r.tail == BitOf(bits, end - 1) + 1
  {
    DivOrder(bits, start, end - 1);
    TailBits(bits, end);
    var last := WordOf(bits, end - 1);
    Span(bits, WordOf(bits, start), last, BitOf(bits, start), end - last * bits)
  }

  lemma SpanInside(bits: nat, start: nat, end: nat, s: nat)
    requires bits > 0 && start < end
    ensures start <= s < end <==> SpanOf(bits, start, end).Inside(WordOf(bits, s), BitOf(bits, s))
  {
    hide WordOf, BitOf;
    DivOrder(bits, start, s);
    DivOrder(bits, s, end - 1);
  }

  /** What is left of the range in its last word is counted from the start of that word. */
  lemma TailBits(bits: nat, end: nat)
    requires bits > 0 && end > 0
    ensures end - WordOf(bits, end - 1) * bits == BitOf(bits, end - 1) + 1
  {
    DivModSplit(end - 1, bits);
  }

  /** The order of two slots, read off their words and positions. */
  lemma DivOrder(bits: nat, s: nat, t: nat)
    requires bits > 0
    ensures s <= t <==>
      WordOf(bits, s) < WordOf(bits, t) || (WordOf(bits, s) == WordOf(bits, t) && BitOf(bits, s) <= BitOf(bits, t))
  {
    hide WordOf, BitOf;
    SlotSplit(bits, s);
    SlotSplit(bits, t);
    if WordOf(bits, s) < WordOf(bits, t) { MulGap(WordOf(bits, s), WordOf(bits, t), bits); }
    if WordOf(bits, t) < WordOf(bits, s) { MulGap(WordOf(bits, t), WordOf(bits, s), bits); }
  }

  ghost predicate RangeIn(members: set<nat>, start: nat, end: nat)
  {
    forall s: nat :: start <= s < end ==> s in members
  }

  /** The range is set exactly when each of its words covers its mask. */
  lemma RangeByWords(bits: nat, n: nat, ws: seq<nat>, start: nat, end: nat, span: Span)
    requires bits > 0 && start < end <= n && Packed(bits, n, ws)
    requires span == SpanOf(bits, start, end) && span.last < |ws|
    ensures RangeIn(Slots(bits, n, ws), start, end) <==> span.AllCovered(ws, span.last + 1)
  {
    hide WordOf, BitOf;
    if RangeIn(Slots(bits, n, ws), start, end) {
      forall w | span.first <= w <= span.last ensures span.Covered(ws, w) {
        CoveredByRange(bits, n, ws, start, end, span, w);
      }
    } else {
      var s: nat :| start <= s < end && s !in Slots(bits, n, ws);
      var w := WordOf(bits, s);
      SpanInside(bits, start, end, s);
      span.MaskBit(w, BitOf(bits, s));
      MaskedEqual(bits, ws[w], span.Mask(w));
      assert !span.Covered(ws, w);
    }
  }

  lemma CoveredByRange(bits: nat, n: nat, ws: seq<nat>, start: nat, end: nat, span: Span, w: nat)
    requires bits > 0 && start < end <= n && Packed(bits, n, ws)
    requires span == SpanOf(bits, start, end) && span.first <= w <= span.last < |ws|
    requires RangeIn(Slots(bits, n, ws), start, end)
    ensures span.Covered(ws, w)
  {
    hide WordOf, BitOf;
    var mask := span.Mask(w);
    forall i: nat | i < bits && Bit(mask, i) ensures Bit(ws[w], i) {
      span.MaskBit(w, i);
      var s := w * bits + i;
      SlotOf(bits, w, i);
      SpanInside(bits, start, end, s);
      assert s in Slots(bits, n, ws);
    }
    MaskedEqual(bits, ws[w], mask);
  }

  lemma OrRangeAt(bits: nat, ws: seq<nat>, ws': seq<nat>, start: nat, end: nat, span: Span, s: nat)
    requires bits > 0 && start < end && |ws'| == |ws|
    requires span == SpanOf(bits, start, end) && span.last < |ws|
    requires forall w :: 0 <= w < |ws| ==>
               ws'[w] == if span.first <= w <= span.last then Or(ws[w], span.Mask(w)) else ws[w]
    ensures Has(bits, ws', s) <==> Has(bits, ws, s) || start <= s < end
  {
    hide SpanOf, Bit, Or, Span.Mask, WordOf, BitOf;
    SpanInside(bits, start, end, s);
    var w := WordOf(bits, s);
    if span.first <= w <= span.last {
      OrBit(ws[w], span.Mask(w), BitOf(bits, s));
      span.MaskBit(w, BitOf(bits, s));
    }
  }

  /** Or-ing each word of the range with its mask adds exactly the range. */
  lemma OrRange(bits: nat, n: nat, ws: seq<nat>, ws': seq<nat>, start: nat, end: nat, span: Span)
    requires bits > 0 && start < end <= n && Packed(bits, n, ws) && |ws'| == |ws|
    requires span == SpanOf(bits, start, end) && span.last < |ws|
    requires forall w :: 0 <= w < |ws| ==>
               ws'[w] == if span.first <= w <= span.last then Or(ws[w], span.Mask(w)) else ws[w]
    ensures Packed(bits, n, ws')
    ensures forall s: nat :: s in Slots(bits, n, ws') <==> s in Slots(bits, n, ws) || start <= s < end
  {
    hide Bit, Or, Span.Mask, SpanOf, WordOf, BitOf;
    forall w | 0 <= w < |ws| ensures ws'[w] < Pow2(bits) {
      if span.first <= w <= span.last { OrBelow(bits, ws[w], span.Mask(w)); }
    }
    forall s: nat ensures Has(bits, ws', s) <==> Has(bits, ws, s) || start <= s < end {
      OrRangeAt(bits, ws, ws', start, end, span, s);
    }
  }

  /** The members of one word are its set bits. */
  lemma WordMembers(bits: nat, n: nat, ws: seq<nat>, w: nat, s: nat)
    requires bits > 0 && Packed(bits, n, ws) && w < |ws|
    ensures s in BitsAt(w * bits, bits, ws[w]) <==> s in Slots(bits, n, ws) && WordOf(bits, s) == w
  {
    hide WordOf, BitOf, Bit;
    var base := w * bits;
    SlotSplit(bits, s);
    if base <= s < base + bits {
      var i := s - base;
      assert s == w * bits + i;
      SlotOf(bits, w, i);
      assert Has(bits, ws, s) <==> Bit(ws[w], i);
    }
  }

  /** A member lies in one of the words that cover the slots. */
  lemma MemberWord(bits: nat, n: nat, ws: seq<nat>, s: nat)
    requires bits > 0 && Packed(bits, n, ws) && s in Slots(bits, n, ws)
    ensures WordOf(bits, s) < (n + bits - 1) / bits
  {
    hide WordOf, BitOf, Bit;
    SlotHas(bits, n, ws, s);
    if WordOf(bits, s) >= (n + bits - 1) / bits {
      PaddingZero(bits, n, ws, WordOf(bits, s));
      ZeroBits(BitOf(bits, s));
      assert false;
    }
  }

  class Bitmap {
    const bits: nat
    const slotCount: nat
    const scanWords: nat
    const words: array<nat>
    var cursor: nat

    ghost predicate Valid()
      reads this, words
    {
      && bits > 0
      && words.Length == scanWords
      && (exists k: nat :: scanWords == Pow2(k))
      && slotCount <= scanWords * bits
      && cursor < Pow2(bits)
      && Packed(bits, slotCount, words[..])
    }

    ghost function Members(): (r: set<nat>)
      requires bits > 0
      reads this, words
      ensures forall s :: s in r ==> s < slotCount
    {
      Slots(bits, slotCount, words[..])
    }

    /** The word a scan starts from: `cursor & word_mask`. */
    ghost function Start(): (r: nat)
      requires Valid()
      reads this, words
      ensures r < scanWords
    {
      StartInRange();
      And(cursor, scanWords - 1)
    }

    lemma StartInRange()
      requires Valid()
      ensures And(cursor, scanWords - 1) < scanWords
    {
      var k: nat :| scanWords == Pow2(k);
      AndLowMask(cursor, k);
    }

    /** `with_allocation_state` (src/bitmap.rs:55-86). */
    constructor (bits: nat, slotCount: nat, initiallyFree: bool)
      requires 0 < bits && slotCount < Pow2(bits)
      ensures Valid() && fresh(words)
      ensures this.bits == bits && this.slotCount == slotCount && cursor == 0
      ensures Members() == if initiallyFree then AllSlots(slotCount) else {}
    {
      hide WordOf, BitOf;
      var actualWords := (slotCount + bits - 1) / bits;
      var k := Log2Ceil(if actualWords >= 1 then actualWords else 1);
      var ws := new nat[Pow2(k)];
      this.bits, this.slotCount, this.scanWords, this.words, this.cursor := bits, slotCount, Pow2(k), ws, 0;
      new;
      CeilCovers(slotCount, bits, Pow2(k));
      var w := 0;
      while w < scanWords
        invariant 0 <= w <= scanWords && fresh(words) && cursor == 0
        invariant forall v :: 0 <= v < w ==> InitialWord(bits, slotCount, initiallyFree, v, words[v])
      {
        words[w] := InitialFor(bits, slotCount, initiallyFree, w);
        w := w + 1;
      }
      InitialWords(bits, slotCount, initiallyFree, words[..]);
    }

    /** `try_claim_word` (src/bitmap.rs:236-249): without interference the first
        `fetch_and` on a nonzero word wins, so the retry loop runs once. */
    method TryClaimWord(w: nat) returns (r: Option<nat>)
      requires Valid() && w < scanWords
      modifies words
      ensures Valid()
      ensures r.None? <==> old(words[w]) == 0
      ensures r.None? ==> words[..] == old(words[..])
      ensures r.Some? ==>
        WordOf(bits, r.value) == w && r.value in old(Members()) && Members() == old(Members()) - {r.value}
      ensures r.Some? ==> forall t :: t in old(Members()) && WordOf(bits, t) == w ==> r.value <= t
    {
      hide WordOf, BitOf;
      var loaded := words[w];
      if loaded == 0 { return None; }
      var bit := TrailingZeros(loaded);
      if bit >= bits { HighBitsClear(bits, loaded, bit); }
      SlotOf(bits, w, bit);
      var slot := w * bits + bit;
      assert Has(bits, words[..], slot);
      var won := TryClaimExact(slot);
      assert won;
      forall t | t in old(Members()) && WordOf(bits, t) == w
        ensures slot <= t
      {
        SlotSplit(bits, t);
      }
      return Some(slot);
    }

    /** `try_claim_exact` (src/bitmap.rs:119-125). */
    method TryClaimExact(slot: nat) returns (won: bool)
      requires Valid() && slot < slotCount
      modifies words
      ensures Valid()
      ensures won <==> slot in old(Members())
      ensures Members() == old(Members()) - {slot}
    {
      hide Bit, Pow2, And, Not, WordOf, BitOf;
      WordInRange(bits, slot, slotCount, scanWords);
      SlotSplit(bits, slot);
      var w, b := WordOf(bits, slot), BitOf(bits, slot);
      SingleBit(bits, words[w], b);
      var mask := Pow2(b);
      var prev := words[w];
      words[w] := And(prev, Not(bits, mask));
      ClearSlot(bits, slotCount, old(words[..]), slot, words[w]);
      assert words[..] == old(words[..])[w := words[w]];
      won := And(prev, mask) != 0;
    }

    /** `free` (src/bitmap.rs:111-117). The caller owns the slot: the source asserts
        that its bit was clear. */
    method Free(slot: nat)
      requires Valid() && slot < slotCount && slot !in Members()
      modifies words
      ensures Valid()
      ensures Members() == old(Members()) + {slot}
    {
      hide WordOf, BitOf;
      WordInRange(bits, slot, slotCount, scanWords);
      var w, b := WordOf(bits, slot), BitOf(bits, slot);
      SingleBit(bits, words[w], b);
      var mask := Pow2(b);
      var prev := words[w];
      words[w] := Or(prev, mask);
      SetSlot(bits, slotCount, old(words[..]), slot, words[w]);
      assert words[..] == old(words[..])[w := words[w]];
      assert And(prev, mask) == 0;
    }

    /** `try_alloc` (src/bitmap.rs:90-103). */
    method TryAlloc() returns (r: Option<nat>)
      requires Valid()
      modifies this, words
      ensures Valid()
      ensures r.None? <==> old(Members()) == {}
      ensures r.None? ==> Members() == old(Members())
      ensures r.Some? ==> IsPick(bits, scanWords, old(Start()), old(Members()), r.value)
      ensures r.Some? ==> Members() == old(Members()) - {r.value}
      ensures cursor == if slotCount == 0 then old(cursor) else (old(cursor) + 1) % Pow2(bits)
    {
      hide WordOf, BitOf;
      if slotCount == 0 { return None; }
      var start := And(cursor, scanWords - 1);
      assert start == Start();
      cursor := (cursor + 1) % Pow2(bits);
      var i := 0;
      while i < scanWords
        invariant 0 <= i <= scanWords
        invariant Valid() && words[..] == old(words[..])
        invariant cursor == (old(cursor) + 1) % Pow2(bits)
        invariant forall w :: 0 <= w < scanWords && ScanDistance(scanWords, start, w) < i ==> words[w] == 0
      {
        WrapIndex(start, i);
        var w := And(start + i, scanWords - 1);
        var claimed := TryClaimWord(w);
        if claimed.Some? {
          PickFound(bits, slotCount, old(words[..]), start, i, claimed.value);
          return claimed;
        }
        i := i + 1;
      }
      EmptyIffZero(bits, slotCount, words[..]);
      return None;
    }

    /** `(start + i) & word_mask` visits the word at distance `i`. */
    lemma WrapIndex(start: nat, i: nat)
      requires Valid() && start < scanWords && i < scanWords
      ensures And(start + i, scanWords - 1) < scanWords
      ensures forall w :: 0 <= w < scanWords ==>
                (ScanDistance(scanWords, start, w) == i <==> w == And(start + i, scanWords - 1))
    {
      var k: nat :| scanWords == Pow2(k);
      AndLowMask(start + i, k);
      ModOnce(start + i, scanWords);
    }

    /** `any_free` (src/bitmap.rs:127-135): only the words that hold slots are read. */
    method AnyFree() returns (r: bool)
      requires Valid()
      ensures r <==> Members() != {}
    {
      hide WordOf, BitOf;
      var actualWords := (slotCount + bits - 1) / bits;
      ActualWords();
      var w := 0;
      while w < actualWords
        invariant 0 <= w <= actualWords
        invariant forall v :: 0 <= v < w ==> words[v] == 0
      {
        if words[w] != 0 {
          EmptyIffZero(bits, slotCount, words[..]);
          return true;
        }
        w := w + 1;
      }
      EmptyIffZero(bits, slotCount, words[..]);
      return false;
    }

    /** `is_free` (src/bitmap.rs:137-142). */
    method IsFree(slot: nat) returns (r: bool)
      requires Valid() && slot < slotCount
      ensures r <==> slot in Members()
    {
      hide WordOf, BitOf;
      WordInRange(bits, slot, slotCount, scanWords);
      Pow2Monotone(BitOf(bits, slot) + 1, bits);
      SingleBit(bits, words[WordOf(bits, slot)], BitOf(bits, slot));
      return And(words[WordOf(bits, slot)], Pow2(BitOf(bits, slot))) != 0;
    }

    /** The words from `div_ceil(slot_count, BITS_PER_WORD)` on are padding and stay zero. */
    lemma ActualWords()
      requires Valid()
      ensures (slotCount + bits - 1) / bits <= scanWords
      ensures forall w :: (slotCount + bits - 1) / bits <= w < scanWords ==> words[w] == 0
    {
      hide WordOf, BitOf;
      var a := (slotCount + bits - 1) / bits;
      CeilLeast(slotCount, bits, scanWords);
      forall w | a <= w < scanWords ensures words[w] == 0 { PaddingZero(bits, slotCount, words[..], w); }
    }

    /** `free_count` (src/bitmap.rs:144-151). */
    method FreeCount() returns (total: nat)
      requires Valid()
      ensures total == |Members()|
    {
      hide WordOf, BitOf;
      var actualWords := (slotCount + bits - 1) / bits;
      ActualWords();
      total := 0;
      var w := 0;
      ghost var counted: set<nat> := {};
      while w < actualWords
        invariant 0 <= w <= actualWords
        invariant counted == set s | s in Members() && WordOf(bits, s) < w
        invariant total == |counted|
      {
        total := total + CountOnes(words[w]);
        CountOnesIsCardinality(w * bits, bits, words[w]);
        ghost var here := BitsAt(w * bits, bits, words[w]);
        forall s: nat ensures s in here <==> s in Members() && WordOf(bits, s) == w {
          WordMembers(bits, slotCount, words[..], w, s);
        }
        assert counted !! here;
        counted := counted + here;
        w := w + 1;
      }
      forall s | s in Members() ensures WordOf(bits, s) < actualWords { MemberWord(bits, slotCount, words[..], s); }
      assert counted == Members();
    }

    /** `all_set_in_range` (src/bitmap.rs:157-188). */
    method AllSetInRange(start: nat, end: nat) returns (r: bool)
      requires Valid() && start <= end <= slotCount
      ensures r <==> RangeIn(Members(), start, end)
    {
      hide WordOf, BitOf;
      if start == end { return true; }
      var span := SpanOf(bits, start, end);
      WordInRange(bits, end - 1, slotCount, scanWords);
      RangeByWords(bits, slotCount, words[..], start, end, span);
      var firstMask := span.Mask(span.first);
      var firstSet := And(words[span.first], firstMask) == firstMask;
      assert firstSet <==> span.Covered(words[..], span.first);
      if span.first == span.last || !firstSet { return firstSet; }
      var w := span.first + 1;
      while w < span.last
        invariant span.first < w <= span.last
        invariant span.AllCovered(words[..], w)
      {
        FullMask(bits, words[w]);
        assert words[w] == Pow2(bits) - 1 <==> span.Covered(words[..], w);
        if words[w] != Pow2(bits) - 1 { return false; }
        w := w + 1;
      }
      var lastMask := span.Mask(span.last);
      r := And(words[span.last], lastMask) == lastMask;
      assert r <==> span.Covered(words[..], span.last);
    }

    /** `set_range` (src/bitmap.rs:192-224). */
    method SetRange(start: nat, end: nat)
      requires Valid() && start <= end <= slotCount
      modifies words
      ensures Valid()
      ensures forall s: nat :: s in Members() <==> s in old(Members()) || start <= s < end
    {
      hide WordOf, BitOf;
      if start == end { return; }
      var span := SpanOf(bits, start, end);
      WordInRange(bits, end - 1, slotCount, scanWords);
      words[span.first] := Or(words[span.first], span.Mask(span.first));
      if span.first < span.last {
        var w := span.first + 1;
        while w < span.last
          invariant span.first < w <= span.last
          invariant forall v :: 0 <= v < scanWords ==>
            words[v] == if span.first <= v < w then Or(old(words[v]), span.Mask(v)) else old(words[v])
        {
          words[w] := Or(words[w], Pow2(bits) - 1);
          w := w + 1;
        }
        words[span.last] := Or(words[span.last], span.Mask(span.last));
      }
      OrRange(bits, slotCount, old(words[..]), words[..], start, end, span);
    }
  }
}
