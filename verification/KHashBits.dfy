/** khash's bit tricks: two flag bits per bucket packed sixteen to a 32-bit word, and the
    round-up to a power of two by bit smearing. */
module KHashBits {
  import opened Triangular

  /* ---- packed bucket flags -------------------------------------------------------- */

  /** What the two flag bits of a bucket say: 2 never used, 1 deleted, 0 holds a live key. */
  datatype Slot = Slot(empty: bool, deleted: bool) {
    predicate Live() {
      !empty && !deleted
    }
  }

  const EMPTY := Slot(true, false)
  const DELETED := Slot(false, true)
  const LIVE := Slot(false, false)

  function WordCount(buckets: nat): (words: nat)
    ensures 0 < words && (buckets % 16 == 0 || buckets < 16 ==> buckets <= 16 * words)
  {
    if buckets < 16 then 1 else buckets / 16
  }

  /** The bit position of bucket i's flags in its word: `(i & 0xf) << 1`. */
  function Shift(i: nat): (s: bv32)
    ensures EvenShift(s)
  {
    match i % 16
    case 0 => 0
    case 1 => 2
    case 2 => 4
    case 3 => 6
    case 4 => 8
    case 5 => 10
    case 6 => 12
    case 7 => 14
    case 8 => 16
    case 9 => 18
    case 10 => 20
    case 11 => 22
    case 12 => 24
    case 13 => 26
    case 14 => 28
    case _ => 30
  }

  function BitsSlot(bits: bv32): Slot {
    Slot(bits & 2 != 0, bits & 1 != 0)
  }

  function WordSlot(word: bv32, shift: bv32): Slot
    requires shift < 32
  {
    BitsSlot((word >> shift) & 3)
  }

  function SlotAt(flags: seq<bv32>, i: nat): Slot
    requires i < 16 * |flags|
  {
    WordSlot(flags[i / 16], Shift(i))
  }

  function Unpack(flags: seq<bv32>, n: nat): (slots: seq<Slot>)
    requires n <= 16 * |flags|
    ensures |slots| == n && forall i :: 0 <= i < n ==> slots[i] == SlotAt(flags, i)
  {
    seq(n, i requires 0 <= i < n => SlotAt(flags, i))
  }

  lemma ShiftsDiffer(i: nat, j: nat)
    requires i % 16 != j % 16
    ensures Shift(i) != Shift(j)
  {
  }

  predicate EvenShift(s: bv32) {
    s < 32 && s & 1 == 0
  }

  lemma SetDeletedWord(w: bv32, s: bv32, t: bv32)
    requires EvenShift(s) && EvenShift(t)
    ensures ((w | (1 << s)) >> s) & 3 == ((w >> s) & 3) | 1
    ensures s != t ==> ((w | (1 << s)) >> t) & 3 == (w >> t) & 3
  {
  }

  lemma SetNotEmptyWord(w: bv32, s: bv32, t: bv32)
    requires EvenShift(s) && EvenShift(t)
    ensures ((w & !(2 << s)) >> s) & 3 == ((w >> s) & 3) & 1
    ensures s != t ==> ((w & !(2 << s)) >> t) & 3 == (w >> t) & 3
  {
  }

  lemma SetLiveWord(w: bv32, s: bv32, t: bv32)
    requires EvenShift(s) && EvenShift(t)
    ensures ((w & !(3 << s)) >> s) & 3 == 0
    ensures s != t ==> ((w & !(3 << s)) >> t) & 3 == (w >> t) & 3
  {
  }

  lemma LowBits(a: bv32)
    ensures (a & 3) & 1 == a & 1 && (a & 3) & 2 == a & 2
    ensures (a & 3 != 0) == (a & 1 != 0 || a & 2 != 0)
    ensures BitsSlot((a & 3) | 1) == Slot(BitsSlot(a & 3).empty, true)
    ensures BitsSlot((a & 3) & 1) == Slot(false, BitsSlot(a & 3).deleted)
  {
  }

  lemma AllEmptyWord(s: bv32)
    requires EvenShift(s)
    ensures WordSlot(0xaaaa_aaaa, s) == EMPTY
  {
  }

  /* The same marks seen as slots; each needs the pair of bits only, not the word around it. */

  lemma DeletedPair(word: bv32, was: bv32, s: bv32)
    requires s < 32 && (word >> s) & 3 == ((was >> s) & 3) | 1
    ensures WordSlot(word, s) == Slot(WordSlot(was, s).empty, true)
  {
    LowBits(was >> s);
  }

  lemma NotEmptyPair(word: bv32, was: bv32, s: bv32)
    requires s < 32 && (word >> s) & 3 == ((was >> s) & 3) & 1
    ensures WordSlot(word, s) == Slot(false, WordSlot(was, s).deleted)
  {
    LowBits(was >> s);
  }

  lemma MarkDeletedWord(w: bv32, s: bv32, t: bv32)
    requires EvenShift(s) && EvenShift(t)
    ensures WordSlot(w | (1 << s), t) == if t == s then Slot(WordSlot(w, s).empty, true) else WordSlot(w, t)
  {
    hide BitsSlot;
    SetDeletedWord(w, s, t);
    if t == s {
      DeletedPair(w | (1 << s), w, s);
    }
  }

  lemma MarkNotEmptyWord(w: bv32, s: bv32, t: bv32)
    requires EvenShift(s) && EvenShift(t)
    ensures WordSlot(w & !(2 << s), t) == if t == s then Slot(false, WordSlot(w, s).deleted) else WordSlot(w, t)
  {
    hide BitsSlot;
    SetNotEmptyWord(w, s, t);
    if t == s {
      NotEmptyPair(w & !(2 << s), w, s);
    }
  }

  lemma MarkLiveWord(w: bv32, s: bv32, t: bv32)
    requires EvenShift(s) && EvenShift(t)
    ensures WordSlot(w & !(3 << s), t) == if t == s then LIVE else WordSlot(w, t)
  {
    SetLiveWord(w, s, t);
    LowBits(w >> s);
  }

  /** Rewriting bucket i's flag word changes no other bucket's flags, provided the new word
      changes only the two bits of bucket i. */
  lemma SlotsAfterUpdate(flags: seq<bv32>, i: nat, word: bv32, slot: Slot, n: nat)
    requires i < n <= 16 * |flags|
    requires forall t :: EvenShift(t) ==>
      WordSlot(word, t) == if t == Shift(i) then slot else WordSlot(flags[i / 16], t)
    ensures Unpack(flags[i / 16 := word], n) == Unpack(flags, n)[i := slot]
  {
    forall j | 0 <= j < n
      ensures SlotAt(flags[i / 16 := word], j) == if j == i then slot else SlotAt(flags, j)
    {
      if j / 16 == i / 16 && j != i {
        ShiftsDiffer(i, j);
      }
    }
  }

  /** `memset(flags, 0xaa, ...)` marks every bucket empty. */
  method FillEmpty(flags: array<bv32>)
    modifies flags
    ensures forall i :: 0 <= i < 16 * flags.Length ==> SlotAt(flags[..], i) == EMPTY
  {
    for w := 0 to flags.Length
      invariant forall v :: 0 <= v < w ==> flags[v] == 0xaaaa_aaaa
    {
      flags[w] := 0xaaaa_aaaa;
    }
    forall i | 0 <= i < 16 * flags.Length
      ensures SlotAt(flags[..], i) == EMPTY
    {
      AllEmptyWord(Shift(i));
    }
  }

  method IsEmpty(flags: array<bv32>, i: nat) returns (b: bool)
    requires i < 16 * flags.Length
    ensures b == SlotAt(flags[..], i).empty
  {
    LowBits(flags[i / 16] >> Shift(i));
    b := (flags[i / 16] >> Shift(i)) & 2 != 0;
  }

  method IsDeleted(flags: array<bv32>, i: nat) returns (b: bool)
    requires i < 16 * flags.Length
    ensures b == SlotAt(flags[..], i).deleted
  {
    LowBits(flags[i / 16] >> Shift(i));
    b := (flags[i / 16] >> Shift(i)) & 1 != 0;
  }

  method IsEither(flags: array<bv32>, i: nat) returns (b: bool)
    requires i < 16 * flags.Length
    ensures b == !SlotAt(flags[..], i).Live()
  {
    LowBits(flags[i / 16] >> Shift(i));
    b := (flags[i / 16] >> Shift(i)) & 3 != 0;
  }

  method OrDeleted(w: bv32, s: bv32) returns (r: bv32)
    requires EvenShift(s)
    ensures forall t :: EvenShift(t) ==> WordSlot(r, t) == if t == s then Slot(WordSlot(w, s).empty, true) else WordSlot(w, t)
  {
    r := w | (1 << s);
    forall t | EvenShift(t)
      ensures WordSlot(r, t) == if t == s then Slot(WordSlot(w, s).empty, true) else WordSlot(w, t)
    {
      MarkDeletedWord(w, s, t);
    }
  }

  method AndNotEmpty(w: bv32, s: bv32) returns (r: bv32)
    requires EvenShift(s)
    ensures forall t :: EvenShift(t) ==> WordSlot(r, t) == if t == s then Slot(false, WordSlot(w, s).deleted) else WordSlot(w, t)
  {
    r := w & !(2 << s);
    forall t | EvenShift(t)
      ensures WordSlot(r, t) == if t == s then Slot(false, WordSlot(w, s).deleted) else WordSlot(w, t)
    {
      MarkNotEmptyWord(w, s, t);
    }
  }

  method AndNotBoth(w: bv32, s: bv32) returns (r: bv32)
    requires EvenShift(s)
    ensures forall t :: EvenShift(t) ==> WordSlot(r, t) == if t == s then LIVE else WordSlot(w, t)
  {
    r := w & !(3 << s);
    forall t | EvenShift(t)
      ensures WordSlot(r, t) == if t == s then LIVE else WordSlot(w, t)
    {
      MarkLiveWord(w, s, t);
    }
  }

  method SetDeleted(flags: array<bv32>, i: nat, ghost n: nat)
    requires i < n <= 16 * flags.Length
    modifies flags
    ensures Unpack(flags[..], n) == old(Unpack(flags[..], n))[i := Slot(old(SlotAt(flags[..], i)).empty, true)]
  {
    ghost var was := flags[..];
    var word := OrDeleted(flags[i / 16], Shift(i));
    SlotsAfterUpdate(was, i, word, Slot(old(SlotAt(flags[..], i)).empty, true), n);
    flags[i / 16] := word;
    assert flags[..] == was[i / 16 := word];
  }

  method SetNotEmpty(flags: array<bv32>, i: nat, ghost n: nat)
    requires i < n <= 16 * flags.Length
    modifies flags
    ensures Unpack(flags[..], n) == old(Unpack(flags[..], n))[i := Slot(false, old(SlotAt(flags[..], i)).deleted)]
  {
    ghost var was := flags[..];
    var word := AndNotEmpty(flags[i / 16], Shift(i));
    SlotsAfterUpdate(was, i, word, Slot(false, old(SlotAt(flags[..], i)).deleted), n);
    flags[i / 16] := word;
    assert flags[..] == was[i / 16 := word];
  }

  method SetLive(flags: array<bv32>, i: nat, ghost n: nat)
    requires i < n <= 16 * flags.Length
    modifies flags
    ensures Unpack(flags[..], n) == old(Unpack(flags[..], n))[i := LIVE]
  {
    ghost var was := flags[..];
    var word := AndNotBoth(flags[i / 16], Shift(i));
    SlotsAfterUpdate(was, i, word, LIVE, n);
    flags[i / 16] := word;
    assert flags[..] == was[i / 16 := word];
  }

  /* ---- rounding up to a power of two ---------------------------------------------- */

  /** A machine word, least significant bit first. */
  type Bits = seq<bool>

  function FromNat(n: nat, w: nat): (b: Bits)
    ensures |b| == w
    decreases w, n
  {
    if w == 0 then [] else [n % 2 == 1] + FromNat(n / 2, w - 1)
  }

  function ToNat(b: Bits): nat {
    if b == [] then 0 else (if b[0] then 1 else 0) + 2 * ToNat(b[1..])
  }

  function Bit(b: Bits, i: nat): bool {
    i < |b| && b[i]
  }

  /** `x |= x >> d` */
  function OrShifted(b: Bits, d: nat): (r: Bits)
    ensures |r| == |b|
  {
    seq(|b|, i requires 0 <= i < |b| => b[i] || Bit(b, i + d))
  }

  /** The steps `x |= x >> d` for d = 1, 2, 4, 8, 16. */
  function Smear(b: Bits, d: nat): (r: Bits)
    requires 0 < d
    ensures |r| == |b|
    decreases 32 - d, b
  {
    if d >= 32 then b else Smear(OrShifted(b, d), 2 * d)
  }

  /** kroundup32: decrement, smear the top bit downwards, increment, all on 32 bits. */
  function KRoundUp32(x: nat): nat
    requires x < Pow2(32)
  {
    var b := FromNat(if x == 0 then Pow2(32) - 1 else x - 1, 32);
    var r := ToNat(Smear(b, 1)) + 1;
    if r == Pow2(32) then 0 else r
  }

  /** Bit i of r is set exactly when one of the bits i .. i + d - 1 of b is. */
  ghost predicate IsWindow(r: Bits, b: Bits, d: nat) {
    |r| == |b| && forall i: nat :: i < |b| ==> (r[i] <==> AnySet(b, i, i + d))
  }

  ghost predicate AnySet(b: Bits, lo: nat, hi: nat) {
    exists j: nat :: lo <= j < hi && Bit(b, j)
  }

  lemma AnySetSplits(b: Bits, lo: nat, mid: nat, hi: nat)
    requires lo <= mid <= hi
    ensures AnySet(b, lo, hi) <==> AnySet(b, lo, mid) || AnySet(b, mid, hi)
  {
  }

  lemma WindowDoubles(r: Bits, b: Bits, d: nat)
    requires IsWindow(r, b, d)
    ensures IsWindow(OrShifted(r, d), b, 2 * d)
  {
    forall i: nat | i < |b|
      ensures OrShifted(r, d)[i] <==> AnySet(b, i, i + 2 * d)
    {
      var s := OrShifted(r, d);
      AnySetSplits(b, i, i + d, i + 2 * d);
      assert s[i] == (r[i] || Bit(r, i + d));
      assert r[i] <==> AnySet(b, i, i + d);
      assert Bit(r, i + d) <==> AnySet(b, i + d, i + 2 * d);
    }
  }

  /** The value of a word with exactly the bits below t set. */
  lemma OnesBelow(b: Bits, t: nat)
    requires t <= |b| && forall i :: 0 <= i < |b| ==> (b[i] <==> i < t)
    ensures ToNat(b) == Pow2(t) - 1
  {
    if b != [] {
      if t == 0 {
        OnesBelow(b[1..], 0);
      } else {
        OnesBelow(b[1..], t - 1);
      }
    }
  }

  /** The top bit of n: n lies in [2^t, 2^(t+1)) exactly when bit t is its highest set bit. */
  lemma TopBit(n: nat, w: nat) returns (t: nat)
    requires 0 < n < Pow2(w)
    ensures t < w && Pow2(t) <= n < 2 * Pow2(t)
    ensures FromNat(n, w)[t]
    ensures forall i :: t < i < w ==> !FromNat(n, w)[i]
  {
    if n == 1 {
      t := 0;
      ZeroBits(w - 1);
    } else {
      var u := TopBit(n / 2, w - 1);
      t := u + 1;
    }
  }

  lemma ZeroBits(w: nat)
    ensures forall i :: 0 <= i < w ==> !FromNat(0, w)[i]
  {
    if w > 0 {
      ZeroBits(w - 1);
    }
  }

  lemma {:induction false} SmearWindow(r: Bits, b: Bits, d: nat)
    requires 0 < d && |b| == 32 && IsWindow(r, b, d)
    ensures IsWindow(Smear(r, d), b, 32)
    decreases 32 - d
  {
    if d < 32 {
      WindowDoubles(r, b, d);
      SmearWindow(OrShifted(r, d), b, 2 * d);
    } else {
      forall i: nat | i < 32
        ensures r[i] <==> AnySet(b, i, i + 32)
      {
        assert AnySet(b, i, i + d) <==> AnySet(b, i, i + 32);
      }
    }
  }

  lemma SmearedWindow(b: Bits)
    requires |b| == 32
    ensures IsWindow(Smear(b, 1), b, 32)
  {
    forall i: nat | i < 32
      ensures b[i] <==> AnySet(b, i, i + 1)
    {
      assert Bit(b, i) == b[i];
    }
    SmearWindow(b, b, 1);
  }

  lemma WindowBelowTop(b: Bits, r: Bits, t: nat)
    requires |b| == 32 && IsWindow(r, b, 32)
    requires t < 32 && b[t] && forall i :: t < i < 32 ==> !b[i]
    ensures ToNat(r) == Pow2(t + 1) - 1
  {
    forall i: nat | i < 32
      ensures r[i] <==> i < t + 1
    {
      assert Bit(b, t);
    }
    OnesBelow(r, t + 1);
  }

  /** Smearing a nonzero n sets every bit up to its top bit, giving 2^(t+1) - 1. */
  lemma SmearedValue(n: nat) returns (t: nat)
    requires 0 < n < Pow2(32)
    ensures t < 32 && Pow2(t) <= n < Pow2(t + 1) && ToNat(Smear(FromNat(n, 32), 1)) == Pow2(t + 1) - 1
  {
    SmearedWindow(FromNat(n, 32));
    t := TopBit(n, 32);
    WindowBelowTop(FromNat(n, 32), Smear(FromNat(n, 32), 1), t);
  }

  lemma SmearedZero()
    ensures ToNat(Smear(FromNat(0, 32), 1)) == 0
  {
    var b := FromNat(0, 32);
    ZeroBits(32);
    SmearedWindow(b);
    OnesBelow(Smear(b, 1), 0);
  }

  /** The smeared value again, with the top bit placed below or at any given bound p. */
  lemma SmearedBelow(n: nat, p: nat) returns (t: nat)
    requires 0 < n < Pow2(p) && p < 32
    ensures t < p && Pow2(t) <= n < Pow2(t + 1) <= Pow2(p)
    ensures ToNat(Smear(FromNat(n, 32), 1)) == Pow2(t + 1) - 1
  {
    Pow2Grows(p, 32);
    t := SmearedValue(n);
    Pow2Strict(p, t);
    Pow2Grows(t + 1, p);
  }

  lemma SmearedTop(n: nat, p: nat)
    requires Pow2(p) <= n < Pow2(p + 1) && p == 31
    ensures ToNat(Smear(FromNat(n, 32), 1)) == Pow2(p + 1) - 1
  {
    var t := SmearedValue(n);
    Pow2Strict(t + 1, p);
  }

  lemma RoundUpLow(x: nat, p: nat)
    requires 1 < x <= Pow2(p) && p == 31 && Pow2(p) < Pow2(32)
    ensures exists k: nat :: KRoundUp32(x) == Pow2(k) && x <= Pow2(k) < 2 * x && k <= 31
  {
    var t := SmearedBelow(x - 1, p);
    assert KRoundUp32(x) == Pow2(t + 1);
  }

  lemma RoundUpOne()
    ensures KRoundUp32(1) == Pow2(0)
  {
    SmearedZero();
  }

  lemma RoundUpWraps(x: nat)
    requires x < Pow2(32)
    requires x == 0 || x > Pow2(31)
    ensures KRoundUp32(x) == 0
  {
    Pow2Grows(31, 32);
    SmearedTop(if x == 0 then Pow2(32) - 1 else x - 1, 31);
  }

  /** kroundup32 yields the least power of two not below its argument, up to 2^31; zero and
      everything above 2^31 wrap to zero. */
  lemma KRoundUp32IsLeastPow2(x: nat)
    requires x < Pow2(32)
    ensures 0 < x <= Pow2(31) ==> exists k: nat :: KRoundUp32(x) == Pow2(k) && x <= Pow2(k) < 2 * x && k <= 31
    ensures x == 0 || x > Pow2(31) ==> KRoundUp32(x) == 0
  {
    Pow2Grows(31, 32);
    if x == 1 {
      RoundUpOne();
    } else if 0 < x <= Pow2(31) {
      RoundUpLow(x, 31);
    } else {
      RoundUpWraps(x);
    }
  }

  lemma Pow2Strict(a: nat, b: nat)
    requires Pow2(a) > Pow2(b)
    ensures a > b
  {
    if a <= b {
      Pow2Grows(a, b);
    }
  }

  lemma Pow2Grows(a: nat, b: nat)
    requires a <= b
    ensures Pow2(a) <= Pow2(b)
    ensures a < b ==> 2 * Pow2(a) <= Pow2(b)
    decreases b - a
  {
    if a < b {
      Pow2Grows(a + 1, b);
    }
  }
}
