/** khash's open-addressing table: power-of-two capacity, triangular probing, packed flags,
    tombstone reuse and an in-place kick-out rehash. Every operation is proved against the
    finite map M. */
module KHash {
  import opened KHashBits
  import opened KHashModel
  import opened Triangular

  /** Range of a khint_t, and the largest capacity that can still be doubled in it. */
  const UINT32_RANGE := 0x1_0000_0000
  const MAX_GROWABLE := 0x4000_0000

  lemma RangeValues()
    ensures Pow2(32) == UINT32_RANGE && Pow2(31) == 2 * MAX_GROWABLE && Pow2(30) == MAX_GROWABLE
  {
    assert Pow2(8) == 0x100;
    assert Pow2(14) == 0x4000;
    assert Pow2(20) == 0x10_0000;
    assert Pow2(26) == 0x400_0000;
    assert Pow2(31) == 0x8000_0000;
  }

  lemma UpperBoundFacts(n: nat)
    ensures n >= 4 ==> n < 2 * UpperBound(n) && UpperBound(n) < n
    ensures n >= 4 ==> UpperBound(n) < UpperBound(2 * n)
  {
  }

  /** The load bound leaves room whichever resize `kh_put` chooses. */
  lemma RoomFacts(n: nat, size: nat)
    requires n == 0 || n >= 4
    requires size <= UpperBound(n)
    ensures n > 2 * size ==> size < UpperBound(n)
    ensures size < UpperBound(if n == 0 then 4 else 2 * n)
    ensures n > 4 && n <= 2 * size ==> size >= UpperBound(4)
  {
  }

  /** From 16 buckets on a power of two fills its flag words exactly. */
  lemma FlagWordsFit(n: nat)
    requires IsPow2(n)
    ensures n <= 16 * WordCount(n)
  {
    var k: nat :| n == Pow2(k);
    if k >= 4 {
      MultipleOf16(k);
    } else {
      Pow2Grows(k, 3);
    }
  }

  lemma MultipleOf16(k: nat)
    requires k >= 4
    ensures Pow2(k) % 16 == 0
  {
    var p := Pow2(k - 4);
    assert Pow2(k - 3) == 2 * p && Pow2(k - 2) == 2 * Pow2(k - 3);
    assert Pow2(k - 1) == 2 * Pow2(k - 2) && Pow2(k) == 16 * p;
  }

  /** The buckets kh_resize works with for a requested count. */
  function ResizeTarget(requested: nat): nat
    requires requested < UINT32_RANGE
  {
    RangeValues();
    var m := KRoundUp32(requested);
    if m < 4 then 4 else m
  }

  lemma ResizeTargetIsPow2(requested: nat)
    requires requested < UINT32_RANGE
    ensures IsPow2(ResizeTarget(requested)) && 4 <= ResizeTarget(requested) < UINT32_RANGE
  {
    RangeValues();
    KRoundUp32IsLeastPow2(requested);
    assert Pow2(2) == 4;
    if 0 < requested <= Pow2(31) {
      var k: nat :| KRoundUp32(requested) == Pow2(k) && requested <= Pow2(k) < 2 * requested && k <= 31;
      Pow2Grows(k, 31);
    }
  }

  lemma LeastPow2IsUnique(a: nat, b: nat, x: nat)
    requires x <= Pow2(a) < 2 * x && x <= Pow2(b) < 2 * x
    ensures a == b
  {
    if a < b {
      Pow2Grows(a, b);
    } else if b < a {
      Pow2Grows(b, a);
    }
  }

  /** The power of two kroundup32 picks is the only one in [x, 2x). */
  lemma RoundUpIs(x: nat, a: nat)
    requires 0 < x <= Pow2(31) < Pow2(32) && x <= Pow2(a) < 2 * x
    ensures KRoundUp32(x) == Pow2(a)
  {
    KRoundUp32IsLeastPow2(x);
    var b: nat :| KRoundUp32(x) == Pow2(b) && x <= Pow2(b) < 2 * x && b <= 31;
    LeastPow2IsUnique(a, b, x);
  }

  /** A capacity that fits a khint_t is at most 2^31. */
  lemma LargestCapacity(n: nat)
    requires IsPow2(n) && n < UINT32_RANGE
    ensures n <= MAX_GROWABLE || n == 2 * MAX_GROWABLE
  {
    RangeValues();
    var k: nat :| n == Pow2(k);
    Pow2Strict(32, k);
    if k <= 30 {
      Pow2Grows(k, 30);
    }
  }

  /** Asking for n - 1 buckets keeps the capacity n. Asking for n + 1 doubles it, except at 2^31
      buckets: there the rounding wraps to 0 and the request becomes 4. */
  lemma PutTargets(n: nat)
    requires n == 0 || (IsPow2(n) && 4 <= n < UINT32_RANGE)
    ensures n > 0 ==> n - 1 < UINT32_RANGE && ResizeTarget(n - 1) == n
    ensures n + 1 < UINT32_RANGE && ResizeTarget(n + 1) == if n == 0 || n > MAX_GROWABLE then 4 else 2 * n
  {
    RangeValues();
    if n == 0 {
      assert Pow2(0) == 1;
      RoundUpIs(1, 0);
    } else {
      LargestCapacity(n);
      var a: nat :| n == Pow2(a);
      assert Pow2(a + 1) == 2 * n;
      RoundUpIs(n - 1, a);
      if n <= MAX_GROWABLE {
        RoundUpIs(n + 1, a + 1);
      } else {
        KRoundUp32IsLeastPow2(n + 1);
      }
    }
  }

  /** The input at which doubling fails: a table of 2^31 buckets asks for 2^31 + 1 and is answered
      with 4, while asking for 2^31 - 1, as a purge does, is answered with 2^31. */
  lemma DoublingWraps()
    ensures ResizeTarget(0x8000_0001) == 4 && ResizeTarget(0x7fff_ffff) == 0x8000_0000
  {
    RangeValues();
    assert IsPow2(Pow2(31));
    PutTargets(0x8000_0000);
  }

  /** `i = hash & mask` */
  method FirstBucket(h: nat, n: nat) returns (i: nat)
    requires 0 < n
    ensures i == Probe(h, n, 0)
  {
    i := h % n;
  }

  /** `i = (i + ++step) & mask`; the walk does not close before probe 2n - 1. */
  method NextBucket(i: nat, step: nat, n: nat, ghost h: nat) returns (j: nat)
    requires IsPow2(n) && 0 < step && i == Probe(h, n, step - 1)
    ensures j == Probe(h, n, step)
    ensures step < 2 * n ==> (j == Probe(h, n, 0) <==> step == 2 * n - 1)
  {
    ClosesAt(h, n, step);
    ProbeStep(h, n, step - 1);
    j := (i + step) % n;
  }

  lemma ClosesAt(h: nat, n: nat, step: nat)
    requires IsPow2(n)
    ensures 0 < step < 2 * n ==> (Probe(h, n, step) == Probe(h, n, 0) <==> step == 2 * n - 1)
  {
    if 0 < step < 2 * n {
      var k: nat :| n == Pow2(k);
      FirstReturn(h, k, step);
    }
  }

  method CopyPrefix<T(0)>(a: array<T>, length: nat) returns (b: array<T>)
    ensures fresh(b) && b.Length == length
    ensures forall i :: 0 <= i < length && i < a.Length ==> b[i] == a[i]
  {
    b := new T[length];
    var common := if a.Length < length then a.Length else length;
    for i := 0 to common
      invariant forall x :: 0 <= x < i ==> b[x] == a[x]
    {
      b[i] := a[i];
    }
  }

  class Table<K(0, ==, !new), V(0)> {
    const hash: K -> nat
    var nBuckets: nat
    var size: nat
    var nOccupied: nat
    var upperBound: nat
    var flags: array<bv32>
    var keys: array<K>
    var vals: array<V>
    ghost var M: map<K, V>

    ghost function Repr(): set<object>
      reads this
    {
      {this, flags, keys, vals}
    }

    /** The arrays are four different objects, with room for all buckets. */
    ghost predicate Shaped()
      reads this
    {
      && flags as object != keys as object && flags as object != vals as object && keys as object != vals as object
      && (nBuckets == 0 || (IsPow2(nBuckets) && 4 <= nBuckets < UINT32_RANGE))
      && keys.Length == vals.Length == nBuckets
      && nBuckets <= 16 * flags.Length
    }

    ghost function Slots(): (s: seq<Slot>)
      requires Shaped()
      reads this, flags
      ensures |s| == nBuckets
    {
      Unpack(flags[..], nBuckets)
    }

    ghost predicate Valid()
      reads Repr()
    {
      && Shaped()
      && Holds(Slots(), keys[..], vals[..], M)
      && Chained(Slots(), keys[..], hash)
      && (forall i :: 0 <= i < nBuckets ==> Slots()[i] in {EMPTY, DELETED, LIVE})
      && size == |M| && nOccupied == |UsedSet(Slots())|
      && upperBound == UpperBound(nBuckets)
      && size <= nOccupied <= upperBound
    }

    constructor (hash: K -> nat)
      ensures Valid() && fresh(Repr()) && M == map[] && this.hash == hash && nBuckets == 0
    {
      this.hash := hash;
      nBuckets, size, nOccupied, upperBound := 0, 0, 0, 0;
      flags := new bv32[0];
      keys := new K[0];
      vals := new V[0];
      M := map[];
      new;
      assert LiveSet(Slots()) == {} && UsedSet(Slots()) == {};
    }

    /** Load facts of every reachable table: an empty bucket always exists. */
    lemma LoadFacts()
      requires Valid()
      ensures size == |M|
      ensures nBuckets > 0 ==> nOccupied <= upperBound < nBuckets
      ensures nBuckets > 0 ==> exists i :: 0 <= i < nBuckets && Slots()[i].empty
    {
      if nBuckets > 0 {
        UpperBoundFacts(nBuckets);
        SomeBucketIsEmpty(Slots());
      }
    }

    method EmptyAt(i: nat) returns (b: bool)
      requires Shaped() && i < nBuckets
      ensures b == Slots()[i].empty
    {
      b := IsEmpty(flags, i);
    }

    method DeletedAt(i: nat) returns (b: bool)
      requires Shaped() && i < nBuckets
      ensures b == Slots()[i].deleted
    {
      b := IsDeleted(flags, i);
    }

    method LiveAt(i: nat) returns (b: bool)
      requires Shaped() && i < nBuckets
      ensures b == Slots()[i].Live()
    {
      b := IsEither(flags, i);
      b := !b;
    }

    /** The probe loop of `kh_get`, on any table whatsoever: it stops at an empty bucket, at the
        live key, or back at its start. */
    method FindBucket(key: K) returns (i: nat, wrapped: bool, ghost step: nat)
      requires Shaped() && 0 < nBuckets
      ensures i < nBuckets && i == Probe(hash(key), nBuckets, step)
      ensures Searched(Slots(), keys[..], key, hash(key), step)
      ensures wrapped ==> 0 < step < 2 * nBuckets && i == Probe(hash(key), nBuckets, 0)
      ensures !wrapped ==> Slots()[i].empty || (!Slots()[i].deleted && keys[i] == key)
    {
      ghost var h, slots, ks := hash(key), Slots(), keys[..];
      var inc := 0;
      i := FirstBucket(hash(key), nBuckets);
      var last := i;
      while true
        invariant inc < 2 * nBuckets - 1 && i == Probe(h, nBuckets, inc)
        invariant Searched(slots, ks, key, h, inc)
        decreases 2 * nBuckets - inc
      {
        var empty := EmptyAt(i);
        var deleted := DeletedAt(i);
        if empty || (!deleted && keys[i] == key) {
          return i, false, inc;
        }
        inc := inc + 1;
        i := NextBucket(i, inc, nBuckets, h);
        if i == last {
          return i, true, inc;
        }
      }
    }

    /** `kh_get`: the bucket of key, or nBuckets when it is absent. */
    method Get(key: K) returns (x: nat)
      requires Valid()
      ensures x <= nBuckets
      ensures key in M <==> x < nBuckets
      ensures x < nBuckets ==> Slots()[x].Live() && keys[x] == key && vals[x] == M[key]
    {
      if nBuckets == 0 {
        return 0;
      }
      var i, wrapped, step := FindBucket(key);
      if wrapped {
        ghost var k: nat :| nBuckets == Pow2(k);
        SearchCoversTable(Slots(), keys[..], vals[..], M, k, key, hash(key), step);
        return nBuckets;
      }
      var live := LiveAt(i);
      if !live {
        SearchEndsAtEmpty(Slots(), keys[..], vals[..], M, hash, key, step);
        return nBuckets;
      }
      return i;
    }

    /** `kh_del` on any bucket number up to nBuckets. */
    method Del(x: nat)
      requires Valid() && x <= nBuckets
      modifies this, flags
      ensures Valid() && Repr() == old(Repr()) && nBuckets == old(nBuckets)
      ensures M == if x < nBuckets && old(Slots()[x].Live()) then old(M) - {old(keys[x])} else old(M)
    {
      if x != nBuckets {
        var live := LiveAt(x);
        if live {
          Kill(x);
        }
      }
    }

    method Kill(x: nat)
      requires Valid() && x < nBuckets && Slots()[x].Live()
      modifies this, flags
      ensures Valid() && Repr() == old(Repr()) && nBuckets == old(nBuckets)
      ensures M == old(M) - {old(keys[x])}
    {
      ghost var slots := Slots();
      DeleteKeepsTable(slots, keys[..], vals[..], M, hash, x);
      LiveAreUsed(slots[x := DELETED]);
      SetDeleted(flags, x, nBuckets);
      size := size - 1;
      M := M - {keys[x]};
      assert Slots() == slots[x := DELETED];
    }

    /** `kh_clear` */
    method Clear()
      requires Valid()
      modifies this, flags
      ensures Valid() && Repr() == old(Repr()) && nBuckets == old(nBuckets)
      ensures M == map[]
    {
      FillEmpty(flags);
      size, nOccupied := 0, 0;
      M := map[];
      assert LiveSet(Slots()) == {} && UsedSet(Slots()) == {};
    }

    /** The table pair a rehash works on: the old flags and the new ones over shared arrays. */
    ghost function Over(newFlags: array<bv32>, m: nat, hand: Option<(K, V)>): Overlay<K, V>
      requires nBuckets <= 16 * flags.Length && m <= 16 * newFlags.Length
      reads this, flags, keys, vals, newFlags
    {
      Overlay(Unpack(flags[..], nBuckets), Unpack(newFlags[..], m), keys[..], vals[..], hand)
    }

    ghost predicate Rehashing(newFlags: array<bv32>, m: nat)
      reads this
    {
      && flags as object != keys as object && flags as object != vals as object && keys as object != vals as object
      && newFlags as object != keys as object && newFlags as object != vals as object && newFlags != flags
      && IsPow2(m)
      && keys.Length == vals.Length && nBuckets <= keys.Length && m <= keys.Length
      && nBuckets <= 16 * flags.Length && m <= 16 * newFlags.Length
    }

    /** o' is o after its entry in hand went into the free bucket i. */
    static ghost predicate Placed(o: Overlay<K, V>, o': Overlay<K, V>, i: nat) {
      && o.hand.Some? && i < |o.dst| && i < |o.keys| && i < |o.vals| && o.dst[i].empty
      && o' == o.Place(i)
    }

    /** The probe loop of the rehash: the first empty bucket of the new table. */
    method FindFree(newFlags: array<bv32>, m: nat, key: K) returns (i: nat)
      requires IsPow2(m) && m <= 16 * newFlags.Length
      requires exists e :: 0 <= e < m && Unpack(newFlags[..], m)[e].empty
      ensures i < m && Unpack(newFlags[..], m)[i].empty
      ensures Reaches(Unpack(newFlags[..], m), hash(key), i)
    {
      ghost var dst, h := Unpack(newFlags[..], m), hash(key);
      ghost var w := EmptyProbe(dst, h);
      var step := 0;
      i := FirstBucket(hash(key), m);
      var empty := IsEmpty(newFlags, i);
      while !empty
        invariant i == Probe(h, m, step) && empty == dst[i].empty && step <= w
        invariant forall t: nat :: t < step ==> !dst[Probe(h, m, t)].empty
        decreases w - step
      {
        step := step + 1;
        i := NextBucket(i, step, m, h);
        empty := IsEmpty(newFlags, i);
      }
      assert ReachesAt(dst, h, i, step);
    }

    /** One kick-out round: put the entry in hand into the new table, taking out the old entry
        that lives in the chosen bucket. */
    method PlaceOne(newFlags: array<bv32>, m: nat, key: K, val: V) returns (more: bool, key': K, val': V, ghost at: nat)
      requires Rehashing(newFlags, m)
      requires Over(newFlags, m, Some((key, val))).Valid(hash, M)
      requires |M| <= m
      modifies flags, newFlags, keys, vals
      ensures Placed(old(Over(newFlags, m, Some((key, val)))),
                     Over(newFlags, m, if more then Some((key', val')) else None), at)
      ensures Over(newFlags, m, if more then Some((key', val')) else None).Valid(hash, M)
    {
      ghost var o := Over(newFlags, m, Some((key, val)));
      assert |UsedSet(o.dst)| < m;
      SomeBucketIsEmpty(o.dst);
      var i := FindFree(newFlags, m, key);
      at := i;
      o.PlaceKeepsValid(hash, M, i);
      SetNotEmpty(newFlags, i, m);
      var kick := false;
      if i < nBuckets {
        var either := IsEither(flags, i);
        kick := !either;
      }
      if kick {
        more, key', val' := true, keys[i], vals[i];
        keys[i], vals[i] := key, val;
        SetDeleted(flags, i, nBuckets);
      } else {
        more, key', val' := false, key, val;
        keys[i], vals[i] := key, val;
      }
      assert Placed(o, Over(newFlags, m, if more then Some((key', val')) else None), i);
    }

    /** Move the entry of bucket j and every entry it kicks out. Each round takes one live entry
        out of the old table, so the chain ends. */
    method KickChain(newFlags: array<bv32>, m: nat, j: nat)
      requires Rehashing(newFlags, m) && j < nBuckets
      requires Over(newFlags, m, None).Valid(hash, M) && |M| <= m
      requires Over(newFlags, m, None).Old(j)
      modifies flags, newFlags, keys, vals
      ensures Over(newFlags, m, None).Valid(hash, M)
      ensures LiveSet(Unpack(flags[..], nBuckets)) <= old(LiveSet(Unpack(flags[..], nBuckets))) - {j}
    {
      ghost var start := Over(newFlags, m, None);
      start.PickKeepsValid(hash, M, j);
      var key, val := keys[j], vals[j];
      SetDeleted(flags, j, nBuckets);
      assert Over(newFlags, m, Some((key, val))) == start.Pick(j);
      var more := true;
      while more
        invariant Over(newFlags, m, if more then Some((key, val)) else None).Valid(hash, M)
        invariant LiveSet(Unpack(flags[..], nBuckets)) <= LiveSet(start.src) - {j}
        decreases |LiveSet(Unpack(flags[..], nBuckets))| + if more then 1 else 0
      {
        ghost var o := Over(newFlags, m, Some((key, val)));
        ghost var at;
        more, key, val, at := PlaceOne(newFlags, m, key, val);
        o.PlaceMembers(at);
        assert more ==> |LiveSet(o.src) - {at}| < |LiveSet(o.src)| by {
          assert more ==> at in LiveSet(o.src);
        }
      }
    }

    method MoveAll(newFlags: array<bv32>, m: nat)
      requires Rehashing(newFlags, m)
      requires Over(newFlags, m, None).Valid(hash, M) && |M| <= m
      modifies flags, newFlags, keys, vals
      ensures Over(newFlags, m, None).Valid(hash, M)
      ensures LiveSet(Unpack(flags[..], nBuckets)) == {}
    {
      for j := 0 to nBuckets
        invariant Over(newFlags, m, None).Valid(hash, M)
        invariant NoneLiveBelow(Unpack(flags[..], nBuckets), j)
      {
        MoveBucket(newFlags, m, j);
      }
    }

    method MoveBucket(newFlags: array<bv32>, m: nat, j: nat)
      requires Rehashing(newFlags, m) && j < nBuckets
      requires Over(newFlags, m, None).Valid(hash, M) && |M| <= m
      requires NoneLiveBelow(Unpack(flags[..], nBuckets), j)
      modifies flags, newFlags, keys, vals
      ensures Over(newFlags, m, None).Valid(hash, M)
      ensures NoneLiveBelow(Unpack(flags[..], nBuckets), j + 1)
    {
      var either := IsEither(flags, j);
      if !either {
        ghost var src := Unpack(flags[..], nBuckets);
        KickChain(newFlags, m, j);
        FewerLive(src, Unpack(flags[..], nBuckets), j);
      }
    }

    /** The in-place rehash to m buckets. */
    method Rehash(m: nat)
      requires Valid() && IsPow2(m) && 4 <= m < UINT32_RANGE && size < UpperBound(m)
      modifies Repr()
      ensures Valid() && fresh(Repr() - old(Repr()))
      ensures M == old(M) && nBuckets == m && size == nOccupied == old(size)
    {
      var newFlags := StartRehash(m);
      UpperBoundFacts(m);
      MoveAll(newFlags, m);
      FinishRehash(newFlags, m);
    }

    method StartRehash(m: nat) returns (newFlags: array<bv32>)
      requires Valid() && IsPow2(m)
      modifies this`keys, this`vals
      ensures fresh(newFlags) && Rehashing(newFlags, m)
      ensures fresh(Repr() - old(Repr()))
      ensures keys.Length == if nBuckets < m then m else nBuckets
      ensures Over(newFlags, m, None).Valid(hash, M)
    {
      newFlags := new bv32[WordCount(m)];
      FlagWordsFit(m);
      FillEmpty(newFlags);
      if nBuckets < m {
        Reallocate(m);
      }
      OverlayStart(Unpack(flags[..], nBuckets), Unpack(newFlags[..], m), keys[..], vals[..], hash, M);
    }

    method FinishRehash(newFlags: array<bv32>, m: nat)
      requires Rehashing(newFlags, m) && 4 <= m < UINT32_RANGE && size == |M| < UpperBound(m)
      requires keys.Length == if nBuckets < m then m else nBuckets
      requires Over(newFlags, m, None).Valid(hash, M)
      requires LiveSet(Unpack(flags[..], nBuckets)) == {}
      modifies this
      ensures Valid() && fresh(Repr() - old(Repr()) - {newFlags})
      ensures M == old(M) && nBuckets == m && size == nOccupied == old(size)
    {
      OverlayDone(Over(newFlags, m, None), hash, M);
      if nBuckets > m {
        Reallocate(m);
      }
      flags := newFlags;
      nBuckets := m;
      nOccupied := size;
      upperBound := UpperBound(m);
    }

    /** `realloc` of the key and value arrays: the common prefix survives. */
    method Reallocate(m: nat)
      requires keys.Length == vals.Length
      requires flags as object != keys as object && flags as object != vals as object && keys as object != vals as object
      modifies this`keys, this`vals
      ensures fresh(keys) && fresh(vals) && keys as object != vals as object
      ensures flags as object != keys as object && flags as object != vals as object
      ensures keys.Length == vals.Length == m
      ensures var common := if m < old(keys.Length) then m else old(keys.Length);
        keys[..common] == old(keys[..common]) && vals[..common] == old(vals[..common])
    {
      keys := CopyPrefix(keys, m);
      vals := CopyPrefix(vals, m);
    }

    /** `kh_resize`: rehash to the rounded-up capacity unless that is too small for the load. */
    method Resize(requested: nat)
      requires Valid() && requested < UINT32_RANGE
      modifies Repr()
      ensures Valid() && fresh(Repr() - old(Repr()))
      ensures M == old(M)
      ensures if old(size) < UpperBound(ResizeTarget(requested))
              then nBuckets == ResizeTarget(requested) && nOccupied == old(size)
              else nBuckets == old(nBuckets) && nOccupied == old(nOccupied)
    {
      RangeValues();
      var m := KRoundUp32(requested);
      if m < 4 {
        m := 4;
      }
      ResizeTargetIsPow2(requested);
      if size < UpperBound(m) {
        Rehash(m);
      }
    }

    /** x is where `kh_put` ends for key after `step` probes: its live bucket, or a reachable
        free one, in which case the search ran into an empty bucket. */
    ghost predicate PlaceFor(key: K, x: nat, step: nat)
      requires Shaped() && 0 < nBuckets
      reads this, flags, keys
    {
      && x < nBuckets && Reaches(Slots(), hash(key), x)
      && if !Slots()[x].empty && !Slots()[x].deleted then keys[x] == key
         else Slots()[Probe(hash(key), nBuckets, step)].empty
    }

    /** The probe loop of `kh_put`, on any table whatsoever: it stops at the live key, at an empty
        bucket - then answering the last tombstone it passed, if any - or back at its start. */
    method FindPlace(key: K) returns (x: nat, ghost wrapped: bool, ghost step: nat)
      requires Shaped() && 0 < nBuckets
      ensures Searched(Slots(), keys[..], key, hash(key), step)
      ensures wrapped ==> 0 < step < 2 * nBuckets && Probe(hash(key), nBuckets, step) == Probe(hash(key), nBuckets, 0)
      ensures !wrapped ==> PlaceFor(key, x, step)
    {
      ghost var h, slots, ks := hash(key), Slots(), keys[..];
      var inc := 0;
      var i := FirstBucket(hash(key), nBuckets);
      var site: nat := nBuckets;
      var last := i;
      while true
        invariant inc < 2 * nBuckets - 1 && i == Probe(h, nBuckets, inc)
        invariant Searched(slots, ks, key, h, inc)
        invariant site != nBuckets ==> site < nBuckets && slots[site].deleted && Reaches(slots, h, site)
        decreases 2 * nBuckets - inc
      {
        assert ReachesAt(slots, h, i, inc);
        var empty := EmptyAt(i);
        if empty {
          return if site != nBuckets then site else i, false, inc;
        }
        var deleted := DeletedAt(i);
        if !deleted && keys[i] == key {
          return i, false, inc;
        }
        if deleted {
          site := i;
        }
        inc := inc + 1;
        i := NextBucket(i, inc, nBuckets, h);
        if i == last {
          return if site != nBuckets then site else i, true, inc;
        }
      }
    }

    /** In a reachable table the search of `kh_put` never wraps, and it decides membership. */
    lemma PlaceDecides(key: K, x: nat, wrapped: bool, step: nat)
      requires Valid() && 0 < nBuckets
      requires Searched(Slots(), keys[..], key, hash(key), step)
      requires wrapped ==> 0 < step < 2 * nBuckets && Probe(hash(key), nBuckets, step) == Probe(hash(key), nBuckets, 0)
      requires !wrapped ==> PlaceFor(key, x, step)
      ensures PlaceFor(key, x, step)
      ensures key in M <==> Slots()[x].Live()
    {
      LoadFacts();
      if wrapped {
        var k: nat :| nBuckets == Pow2(k);
        SearchCoversTable(Slots(), keys[..], vals[..], M, k, key, hash(key), step);
      } else if !Slots()[x].Live() {
        SearchEndsAtEmpty(Slots(), keys[..], vals[..], M, hash, key, step);
      }
    }

    /** The result code of `kh_put` for the bucket it chose. */
    static function HowPut(slot: Slot): int {
      if slot.empty then 1 else if slot.deleted then 2 else 0
    }

    /** A key can be put: there is room below the load bound, or the resize that `kh_put` asks for
        makes some. Only a table of 2^31 buckets more than half of which are live fails this. */
    ghost predicate CanPut()
      reads this
    {
      nOccupied < upperBound || nBuckets <= MAX_GROWABLE || nBuckets > 2 * size
    }

    lemma FewKeysCanPut()
      requires Valid() && |M| < MAX_GROWABLE
      ensures CanPut()
    {
      if nBuckets > 0 {
        LargestCapacity(nBuckets);
      }
    }

    /** The capacity after a put on a table of n buckets. */
    static function PutCapacity(n: nat, size: nat, full: bool): nat {
      if !full then n else if n == 0 then 4 else if n > 2 * size || n > MAX_GROWABLE then n else 2 * n
    }

    /** `kh_put`: the bucket of key, which is inserted when absent. ret is 0 when the key was
        present, 1 when it went to an empty bucket and 2 when it reused a tombstone. The value
        slot of a new key is left as it was. */
    method Put(key: K) returns (x: nat, ret: int)
      requires Valid() && CanPut()
      modifies Repr()
      ensures Valid() && fresh(Repr() - old(Repr()))
      ensures x < nBuckets && Slots()[x].Live() && keys[x] == key
      ensures ret in {0, 1, 2} && (ret == 0 <==> key in old(M))
      ensures M == if ret == 0 then old(M) else old(M)[key := vals[x]]
      ensures old(nOccupied < upperBound) ==> nBuckets == old(nBuckets) && nOccupied == old(nOccupied) + (if ret == 1 then 1 else 0)
      ensures old(nOccupied < upperBound) ==> x < |old(Slots())| && ret == HowPut(old(Slots())[x])
      ensures nBuckets == PutCapacity(old(nBuckets), old(size), old(nOccupied >= upperBound))
    {
      if nOccupied >= upperBound {
        MakeRoom();
      }
      x, ret := Insert(key);
    }

    /** The resize `kh_put` asks for makes room for one more key iff the table has at most 2^30
        buckets or is less than half live; otherwise it does nothing. */
    method MakeRoom()
      requires Valid() && nOccupied == upperBound
      modifies Repr()
      ensures Valid() && fresh(Repr() - old(Repr()))
      ensures M == old(M) && nBuckets == PutCapacity(old(nBuckets), old(size), true)
      ensures nOccupied < upperBound <==> old(nBuckets <= MAX_GROWABLE || nBuckets > 2 * size)
    {
      hide UpperBound, ResizeTarget, Holds, Chained, UsedSet;
      PutTargets(nBuckets);
      if nBuckets > 0 {
        LargestCapacity(nBuckets);
      }
      RoomFacts(nBuckets, size);
      if nBuckets > 2 * size {
        ResizeTo(nBuckets - 1, nBuckets);
      } else {
        Double();
      }
    }

    method Double()
      requires Valid() && nOccupied == upperBound && nBuckets <= 2 * size
      modifies Repr()
      ensures Valid() && fresh(Repr() - old(Repr()))
      ensures M == old(M) && nBuckets == PutCapacity(old(nBuckets), old(size), true)
      ensures nOccupied < upperBound <==> old(nBuckets <= MAX_GROWABLE)
    {
      hide UpperBound, ResizeTarget, Holds, Chained, UsedSet;
      PutTargets(nBuckets);
      RoomFacts(nBuckets, size);
      ghost var target := if nBuckets == 0 || nBuckets > MAX_GROWABLE then 4 else 2 * nBuckets;
      ResizeTo(nBuckets + 1, target);
    }

    method ResizeTo(requested: nat, ghost target: nat)
      requires Valid() && requested < UINT32_RANGE && target == ResizeTarget(requested)
      modifies Repr()
      ensures Valid() && fresh(Repr() - old(Repr()))
      ensures M == old(M)
      ensures if old(size) < UpperBound(target) then nBuckets == target && nOccupied == old(size) < upperBound
              else nBuckets == old(nBuckets) && nOccupied == old(nOccupied) && upperBound == old(upperBound)
    {
      Resize(requested);
    }

    method Insert(key: K) returns (x: nat, ret: int)
      requires Valid() && nOccupied < upperBound
      modifies this, flags, keys
      ensures Valid() && Repr() == old(Repr()) && nBuckets == old(nBuckets)
      ensures x < nBuckets && Slots()[x].Live() && keys[x] == key
      ensures ret in {0, 1, 2} && (ret == 0 <==> key in old(M))
      ensures M == if ret == 0 then old(M) else old(M)[key := vals[x]]
      ensures ret == HowPut(old(Slots())[x]) && nOccupied == old(nOccupied) + (if ret == 1 then 1 else 0)
    {
      ghost var wrapped, step;
      x, wrapped, step := FindPlace(key);
      PlaceDecides(key, x, wrapped, step);
      var empty := EmptyAt(x);
      var deleted := DeletedAt(x);
      if empty || deleted {
        Occupy(key, x, empty);
      }
      ret := if empty then 1 else if deleted then 2 else 0;
    }

    method Occupy(key: K, x: nat, empty: bool)
      requires Valid() && nOccupied < upperBound && x < nBuckets && key !in M
      requires !Slots()[x].Live() && empty == Slots()[x].empty && Reaches(Slots(), hash(key), x)
      modifies this, flags, keys
      ensures Valid() && Repr() == old(Repr()) && nBuckets == old(nBuckets)
      ensures Slots()[x].Live() && keys[x] == key
      ensures M == old(M)[key := vals[x]] && nOccupied == old(nOccupied) + (if empty then 1 else 0)
    {
      ghost var slots := Slots();
      OccupyFacts(slots, keys[..], vals[..], M, hash, key, x);
      keys[x] := key;
      SetLive(flags, x, nBuckets);
      size := size + 1;
      if empty {
        nOccupied := nOccupied + 1;
      }
      M := M[key := vals[x]];
      assert Slots() == slots[x := LIVE];
      assert keys[..] == old(keys[..])[x := key];
    }

    /** Overwriting the value slot of a live bucket: `kh_val(h, x) = v`. */
    method SetVal(x: nat, v: V)
      requires Valid() && x < nBuckets && Slots()[x].Live()
      modifies this`M, vals
      ensures Valid() && Repr() == old(Repr())
      ensures M == old(M)[keys[x] := v]
    {
      vals[x] := v;
      M := M[keys[x] := v];
      assert vals[..] == old(vals[..])[x := v];
      HoldsNewValue(Slots(), keys[..], old(vals[..]), old(M), x, v);
    }
  }
}
