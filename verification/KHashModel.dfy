/** What a khash table means, stated on plain sequences: the finite map its live buckets hold,
    the probe-chain condition that makes every key findable, and the two-table overlay that the
    in-place rehash maintains. */
module KHashModel {
  import opened KHashBits
  import opened Triangular

  datatype Option<T> = None | Some(value: T)

  /** `(khint_t)(n * 0.77 + 0.5)` */
  function UpperBound(buckets: nat): nat {
    (77 * buckets + 50) / 100
  }

  /** The load bound is 0.77 of the capacity to the nearest integer, and leaves a bucket free. */
  lemma LoadBound(n: nat)
    ensures 77 * n - 50 < 100 * UpperBound(n) <= 77 * n + 50
    ensures n >= 4 ==> 0 < UpperBound(n) < n
    ensures UpperBound(4) == 3 && UpperBound(8) == 6 && UpperBound(16) == 12 && UpperBound(32) == 25
  {
  }

  ghost function LiveSet(slots: seq<Slot>): set<nat> {
    set i: nat | i < |slots| && slots[i].Live()
  }

  ghost predicate NoneLiveBelow(slots: seq<Slot>, j: nat)
    ensures NoneLiveBelow(slots, j) && |slots| <= j ==> LiveSet(slots) == {}
  {
    forall i: nat :: i < j && i < |slots| ==> !slots[i].Live()
  }

  lemma FewerLive(slots: seq<Slot>, slots': seq<Slot>, j: nat)
    requires |slots'| == |slots| && NoneLiveBelow(slots, j) && LiveSet(slots') <= LiveSet(slots) - {j}
    ensures NoneLiveBelow(slots', j + 1)
  {
    forall i: nat | i < j + 1 && i < |slots'|
      ensures !slots'[i].Live()
    {
      assert i !in LiveSet(slots) - {j};
    }
  }

  ghost function UsedSet(slots: seq<Slot>): set<nat> {
    set i: nat | i < |slots| && !slots[i].empty
  }

  /** Bucket i is hit at probe s of hash h, after non-empty buckets only. */
  ghost predicate ReachesAt(slots: seq<Slot>, h: nat, i: nat, s: nat) {
    && 0 < |slots|
    && Probe(h, |slots|, s) == i
    && forall t: nat :: t < s ==> !slots[Probe(h, |slots|, t)].empty
  }

  ghost predicate Reaches(slots: seq<Slot>, h: nat, i: nat) {
    exists s: nat :: ReachesAt(slots, h, i, s)
  }

  /** The live buckets hold exactly the entries of m, each once. */
  ghost predicate Holds<K, V>(slots: seq<Slot>, keys: seq<K>, vals: seq<V>, m: map<K, V>) {
    && |keys| == |vals| == |slots|
    && (forall i :: 0 <= i < |slots| && slots[i].Live() ==> keys[i] in m && m[keys[i]] == vals[i])
    && |LiveSet(slots)| == |m|
    && (forall i, j :: 0 <= i < j < |slots| && slots[i].Live() && slots[j].Live() ==> keys[i] != keys[j])
  }

  ghost function KeysIn<K>(keys: seq<K>, some: set<nat>): set<K>
    requires forall i :: i in some ==> i < |keys|
  {
    set i | i in some :: keys[i]
  }

  lemma {:induction false} DistinctKeysCount<K>(keys: seq<K>, some: set<nat>)
    requires forall i :: i in some ==> i < |keys|
    requires forall i, j :: i in some && j in some && i != j ==> keys[i] != keys[j]
    ensures |KeysIn(keys, some)| == |some|
  {
    if some != {} {
      var x :| x in some;
      DistinctKeysCount(keys, some - {x});
      assert KeysIn(keys, some) == KeysIn(keys, some - {x}) + {keys[x]};
    }
  }

  lemma SubsetOfSameSize<T>(a: set<T>, b: set<T>)
    requires a <= b && |a| == |b|
    ensures a == b
  {
    var rest := b - a;
    assert |a + rest| == |a| + |rest| && a + rest == b;
  }

  /** As many distinct live keys as m has keys: every key of m is live somewhere. */
  lemma LiveKeysAreAll<K, V>(slots: seq<Slot>, keys: seq<K>, vals: seq<V>, m: map<K, V>)
    requires Holds(slots, keys, vals, m)
    ensures m.Keys == KeysIn(keys, LiveSet(slots))
    ensures forall k :: k in m <==> exists i :: 0 <= i < |slots| && slots[i].Live() && keys[i] == k
  {
    DistinctKeysCount(keys, LiveSet(slots));
    SubsetOfSameSize(KeysIn(keys, LiveSet(slots)), m.Keys);
  }

  /** No live key has an empty bucket before it on its probe path. */
  ghost predicate Chained<K(!new)>(slots: seq<Slot>, keys: seq<K>, hash: K -> nat) {
    && |keys| == |slots|
    && forall i :: 0 <= i < |slots| && slots[i].Live() ==> Reaches(slots, hash(keys[i]), i)
  }

  /** The buckets probed before step s of hash h are all taken, and none holds key alive. */
  ghost predicate Searched<K>(slots: seq<Slot>, keys: seq<K>, key: K, h: nat, s: nat) {
    && |keys| == |slots| > 0
    && forall t: nat :: t < s ==>
         var i := Probe(h, |slots|, t);
         !slots[i].empty && (slots[i].deleted || keys[i] != key)
  }

  /** A search that ran into an empty bucket proves its key absent. */
  lemma SearchEndsAtEmpty<K(!new), V>(slots: seq<Slot>, keys: seq<K>, vals: seq<V>, m: map<K, V>,
                                      hash: K -> nat, key: K, s: nat)
    requires Holds(slots, keys, vals, m) && Chained(slots, keys, hash)
    requires Searched(slots, keys, key, hash(key), s)
    requires slots[Probe(hash(key), |slots|, s)].empty
    ensures key !in m
  {
    LiveKeysAreAll(slots, keys, vals, m);
    forall i: nat | i < |slots| && slots[i].Live()
      ensures keys[i] != key
    {
      var t: nat :| ReachesAt(slots, hash(keys[i]), i, t);
      NotReachedPastEmpty(slots, keys, key, hash(key), s, i, hash(keys[i]), t);
    }
  }

  lemma NotReachedPastEmpty<K>(slots: seq<Slot>, keys: seq<K>, key: K, h: nat, s: nat, i: nat, h': nat, t: nat)
    requires Searched(slots, keys, key, h, s) && slots[Probe(h, |slots|, s)].empty
    requires i < |slots| && ReachesAt(slots, h', i, t) && slots[i].Live()
    ensures h' == h ==> keys[i] != key
  {
  }

  /** A search that came back to its starting bucket proves its key absent: it has by then
      inspected every bucket. */
  lemma SearchCoversTable<K(!new), V>(slots: seq<Slot>, keys: seq<K>, vals: seq<V>, m: map<K, V>,
                                      k: nat, key: K, h: nat, s: nat)
    requires |slots| == Pow2(k) && Holds(slots, keys, vals, m)
    requires Searched(slots, keys, key, h, s)
    requires 0 < s < 2 * |slots| && Probe(h, |slots|, s) == Probe(h, |slots|, 0)
    ensures key !in m
    ensures forall i :: 0 <= i < |slots| ==> !slots[i].empty
  {
    LiveKeysAreAll(slots, keys, vals, m);
    FirstReturn(h, k, s);
    forall i: nat | i < |slots|
      ensures !slots[i].empty && (slots[i].deleted || keys[i] != key)
    {
      ProbesVisitEveryBucket(h, k, i);
      var t: nat :| t < |slots| && Probe(h, |slots|, t) == i;
      assert t < s;
    }
  }

  /** A table with fewer used buckets than buckets has an empty one. */
  lemma SomeBucketIsEmpty(slots: seq<Slot>)
    requires |UsedSet(slots)| < |slots|
    ensures exists i :: 0 <= i < |slots| && slots[i].empty
  {
    assert (forall i :: 0 <= i < |slots| ==> !slots[i].empty) ==> UsedSet(slots) == Below(|slots|);
  }

  /** Probing a power-of-two table that has an empty bucket meets one within n probes. */
  lemma EmptyProbe(slots: seq<Slot>, h: nat) returns (w: nat)
    requires IsPow2(|slots|) && exists e :: 0 <= e < |slots| && slots[e].empty
    ensures w < |slots| && slots[Probe(h, |slots|, w)].empty
  {
    var k: nat :| |slots| == Pow2(k);
    var e: nat :| e < |slots| && slots[e].empty;
    ProbesVisitEveryBucket(h, k, e);
    w :| 0 <= w < |slots| && Probe(h, |slots|, w) == e;
  }

  lemma LiveAreUsed(slots: seq<Slot>)
    ensures LiveSet(slots) <= UsedSet(slots)
    ensures |LiveSet(slots)| <= |UsedSet(slots)| <= |slots|
  {
    var rest := UsedSet(slots) - LiveSet(slots);
    assert UsedSet(slots) == LiveSet(slots) + rest;
    assert |LiveSet(slots) + rest| == |LiveSet(slots)| + |rest|;
    FullSubset(UsedSet(slots), |slots|);
  }

  lemma ReachesSurvives(slots: seq<Slot>, slots': seq<Slot>, h: nat, i: nat)
    requires |slots'| == |slots| && Reaches(slots, h, i)
    requires forall j :: 0 <= j < |slots| && slots'[j].empty ==> slots[j].empty
    ensures Reaches(slots', h, i)
  {
    var s: nat :| ReachesAt(slots, h, i, s);
    assert ReachesAt(slots', h, i, s);
  }

  /** Writing a new key into a bucket its probe path reaches keeps the table well formed. */
  lemma InsertKeepsTable<K(!new), V>(slots: seq<Slot>, keys: seq<K>, vals: seq<V>, m: map<K, V>,
                                     hash: K -> nat, key: K, x: nat)
    requires Holds(slots, keys, vals, m) && Chained(slots, keys, hash)
    requires key !in m && x < |slots| && !slots[x].Live() && Reaches(slots, hash(key), x)
    ensures Holds(slots[x := LIVE], keys[x := key], vals, m[key := vals[x]])
    ensures Chained(slots[x := LIVE], keys[x := key], hash)
  {
    InsertMembers(slots, x);
    InsertHolds(slots, keys, vals, m, key, x);
    var slots', keys' := slots[x := LIVE], keys[x := key];
    forall i | 0 <= i < |slots'| && slots'[i].Live()
      ensures Reaches(slots', hash(keys'[i]), i)
    {
      ReachesSurvives(slots, slots', hash(keys'[i]), i);
    }
  }

  lemma InsertMembers(slots: seq<Slot>, x: nat)
    requires x < |slots|
    ensures LiveSet(slots[x := LIVE]) == LiveSet(slots) + {x}
    ensures UsedSet(slots[x := LIVE]) == UsedSet(slots) + {x}
  {
  }

  lemma InsertHolds<K, V>(slots: seq<Slot>, keys: seq<K>, vals: seq<V>, m: map<K, V>, key: K, x: nat)
    requires Holds(slots, keys, vals, m)
    requires key !in m && x < |slots| && !slots[x].Live()
    ensures Holds(slots[x := LIVE], keys[x := key], vals, m[key := vals[x]])
  {
    InsertMembers(slots, x);
  }

  lemma OccupyFacts<K(!new), V>(slots: seq<Slot>, keys: seq<K>, vals: seq<V>, m: map<K, V>,
                                hash: K -> nat, key: K, x: nat)
    requires Holds(slots, keys, vals, m) && Chained(slots, keys, hash)
    requires key !in m && x < |slots| && !slots[x].Live() && Reaches(slots, hash(key), x)
    ensures Holds(slots[x := LIVE], keys[x := key], vals, m[key := vals[x]])
    ensures Chained(slots[x := LIVE], keys[x := key], hash)
    ensures |m[key := vals[x]]| == |m| + 1
    ensures |UsedSet(slots[x := LIVE])| == |UsedSet(slots)| + if slots[x].empty then 1 else 0
    ensures |m[key := vals[x]]| <= |UsedSet(slots[x := LIVE])|
  {
    InsertKeepsTable(slots, keys, vals, m, hash, key, x);
    InsertMembers(slots, x);
    LiveAreUsed(slots[x := LIVE]);
    if !slots[x].empty {
      assert UsedSet(slots) + {x} == UsedSet(slots);
    }
  }

  lemma HoldsNewValue<K, V>(slots: seq<Slot>, keys: seq<K>, vals: seq<V>, m: map<K, V>, x: nat, v: V)
    requires Holds(slots, keys, vals, m) && x < |slots| && slots[x].Live()
    ensures Holds(slots, keys, vals[x := v], m[keys[x] := v])
  {
    assert m[keys[x] := v].Keys == m.Keys;
  }

  /** Marking a live bucket deleted removes exactly its key. */
  lemma DeleteKeepsTable<K(!new), V>(slots: seq<Slot>, keys: seq<K>, vals: seq<V>, m: map<K, V>,
                                     hash: K -> nat, x: nat)
    requires Holds(slots, keys, vals, m) && Chained(slots, keys, hash)
    requires x < |slots| && slots[x].Live()
    ensures Holds(slots[x := DELETED], keys, vals, m - {keys[x]})
    ensures Chained(slots[x := DELETED], keys, hash)
    ensures LiveSet(slots[x := DELETED]) == LiveSet(slots) - {x}
    ensures UsedSet(slots[x := DELETED]) == UsedSet(slots)
  {
    var slots', m' := slots[x := DELETED], m - {keys[x]};
    assert LiveSet(slots') == LiveSet(slots) - {x};
    assert m'.Keys == m.Keys - {keys[x]};
    forall i | 0 <= i < |slots'| && slots'[i].Live()
      ensures Reaches(slots', hash(keys[i]), i)
    {
      ReachesSurvives(slots, slots', hash(keys[i]), i);
    }
  }

  /* ---- the overlay kept by the in-place rehash ------------------------------------- */

  /** During a rehash one pair of key and value arrays serves two tables: `src` says which
      buckets still hold an entry to move, `dst` which hold an entry already moved. One entry
      may be in hand. */
  datatype Overlay<K, V> = Overlay(src: seq<Slot>, dst: seq<Slot>, keys: seq<K>, vals: seq<V>, hand: Option<(K, V)>) {

    ghost predicate Old(i: int) {
      0 <= i < |src| && src[i].Live()
    }

    ghost predicate New(i: int) {
      0 <= i < |dst| && !dst[i].empty
    }

    ghost predicate Entry(i: int) {
      Old(i) || New(i)
    }

    ghost predicate Separate() {
      && |keys| == |vals| >= |src| && |keys| >= |dst| > 0
      && (forall i :: 0 <= i < |dst| ==> dst[i] == EMPTY || dst[i] == LIVE)
      && (forall i :: Old(i) ==> !New(i))
    }

    ghost predicate Agrees(m: map<K, V>)
      requires Separate()
    {
      && (forall i :: Entry(i) ==> keys[i] in m && m[keys[i]] == vals[i])
      && (hand.Some? ==> hand.value.0 in m && m[hand.value.0] == hand.value.1)
    }

    ghost predicate Distinct()
      requires Separate()
    {
      && (forall i, j :: Entry(i) && Entry(j) && i != j ==> keys[i] != keys[j])
      && (hand.Some? ==> forall i :: Entry(i) ==> keys[i] != hand.value.0)
    }

    /** Old entries, moved entries and the entry in hand together are the map m, each key once,
        and no bucket is both old and moved. */
    ghost predicate Covers(m: map<K, V>) {
      Separate() && Agrees(m) && Distinct() && Count() == |m|
    }

    /** Covers m, and every moved entry is reachable in the new table. */
    ghost predicate Valid(hash: K -> nat, m: map<K, V>) {
      Covers(m) && forall i :: New(i) ==> Reaches(dst, hash(keys[i]), i)
    }

    /** Number of entries in the three places. */
    ghost function Count(): nat {
      |LiveSet(src)| + |UsedSet(dst)| + if hand.Some? then 1 else 0
    }

    /** Take the entry of bucket j in hand. */
    function Pick(j: nat): Overlay<K, V>
      requires j < |src| && j < |keys| && j < |vals|
    {
      this.(src := src[j := DELETED], hand := Some((keys[j], vals[j])))
    }

    /** Put the entry in hand into bucket i of the new table, taking out the old entry that
        still lives there, if any. */
    function Place(i: nat): Overlay<K, V>
      requires hand.Some? && i < |dst| && i < |keys| && i < |vals|
    {
      var next := Overlay(src, dst[i := LIVE], keys[i := hand.value.0], vals[i := hand.value.1], None);
      if i < |src| && src[i].Live() then
        next.(src := src[i := DELETED], hand := Some((keys[i], vals[i])))
      else
        next
    }

    lemma PickKeepsValid(hash: K -> nat, m: map<K, V>, j: nat)
      requires Valid(hash, m) && hand.None? && Old(j)
      ensures Pick(j).Valid(hash, m)
      ensures Pick(j).Count() == Count()
      ensures LiveSet(Pick(j).src) == LiveSet(src) - {j}
    {
      var o := Pick(j);
      assert LiveSet(o.src) == LiveSet(src) - {j};
      assert forall i :: o.Old(i) <==> Old(i) && i != j;
      assert forall i :: o.New(i) <==> New(i);
    }

    lemma PlaceMembers(i: nat)
      requires hand.Some? && |keys| == |vals| && i < |dst| <= |keys| && !New(i)
      ensures forall x :: Place(i).New(x) <==> New(x) || x == i
      ensures forall x :: Place(i).Old(x) <==> Old(x) && x != i
      ensures LiveSet(Place(i).src) == LiveSet(src) - {i}
      ensures UsedSet(Place(i).dst) == UsedSet(dst) + {i}
      ensures Place(i).Count() == Count()
      ensures Place(i).hand.Some? <==> Old(i)
    {
      var o := Place(i);
      assert LiveSet(o.src) == LiveSet(src) - {i};
      assert UsedSet(o.dst) == UsedSet(dst) + {i};
    }

    lemma PlaceKeepsValid(hash: K -> nat, m: map<K, V>, i: nat)
      requires Valid(hash, m) && hand.Some?
      requires i < |dst| && dst[i].empty && Reaches(dst, hash(hand.value.0), i)
      ensures Place(i).Valid(hash, m)
    {
      var o := Place(i);
      PlaceMembers(i);
      PlaceKeepsEntries(m, i);
      forall x | o.New(x)
        ensures Reaches(o.dst, hash(o.keys[x]), x)
      {
        assert x == i || New(x);
        ReachesSurvives(dst, o.dst, hash(o.keys[x]), x);
      }
    }

    lemma PlaceKeepsEntries(m: map<K, V>, i: nat)
      requires Covers(m) && hand.Some?
      requires i < |dst| && dst[i].empty
      ensures Place(i).Covers(m)
    {
      PlaceMembers(i);
      PlaceSeparates(i);
      PlaceAgrees(m, i);
      PlaceIsDistinct(i);
    }

    lemma PlaceSeparates(i: nat)
      requires Separate() && hand.Some? && i < |dst| && dst[i].empty
      ensures Place(i).Separate()
      ensures forall x :: Place(i).Entry(x) <==> Entry(x) || x == i
      ensures forall x :: Place(i).Entry(x) && x != i ==> Place(i).keys[x] == keys[x] && Place(i).vals[x] == vals[x]
    {
      PlaceMembers(i);
    }

    lemma PlaceAgrees(m: map<K, V>, i: nat)
      requires Separate() && Agrees(m) && hand.Some? && i < |dst| && dst[i].empty
      ensures Place(i).Separate() && Place(i).Agrees(m)
    {
      PlaceSeparates(i);
      assert Old(i) ==> Entry(i);
    }

    lemma PlaceIsDistinct(i: nat)
      requires Separate() && Distinct() && hand.Some? && i < |dst| && dst[i].empty
      ensures Place(i).Separate() && Place(i).Distinct()
    {
      PlaceSeparates(i);
      assert Old(i) ==> Entry(i);
    }
  }

  /** When no old entry and no entry in hand remains, the new table is the map. */
  lemma OverlayDone<K(!new), V>(o: Overlay<K, V>, hash: K -> nat, m: map<K, V>)
    requires o.Valid(hash, m) && o.hand.None? && LiveSet(o.src) == {}
    ensures Holds(o.dst, o.keys[..|o.dst|], o.vals[..|o.dst|], m)
    ensures Chained(o.dst, o.keys[..|o.dst|], hash)
    ensures LiveSet(o.dst) == UsedSet(o.dst)
    ensures |UsedSet(o.dst)| == o.Count()
  {
    NoOldLeft(o);
    EntriesHold(o, m);
    EntriesChained(o, hash);
  }

  lemma EntriesChained<K(!new), V>(o: Overlay<K, V>, hash: K -> nat)
    requires |o.dst| <= |o.keys|
    requires forall i :: o.New(i) ==> Reaches(o.dst, hash(o.keys[i]), i)
    ensures Chained(o.dst, o.keys[..|o.dst|], hash)
  {
    var keys := o.keys[..|o.dst|];
    forall i | 0 <= i < |o.dst| && o.dst[i].Live()
      ensures Reaches(o.dst, hash(keys[i]), i)
    {
      assert o.New(i);
    }
  }

  lemma NoOldLeft<K, V>(o: Overlay<K, V>)
    requires o.Separate() && o.hand.None? && LiveSet(o.src) == {}
    ensures forall i :: o.Entry(i) <==> 0 <= i < |o.dst| && o.dst[i].Live()
    ensures LiveSet(o.dst) == UsedSet(o.dst)
    ensures |UsedSet(o.dst)| == o.Count()
  {
    forall i: nat
      ensures !o.Old(i)
    {
      assert i !in LiveSet(o.src);
    }
    forall i: nat | i < |o.dst|
      ensures o.dst[i].Live() <==> !o.dst[i].empty
    {
    }
  }

  lemma EntriesHold<K, V>(o: Overlay<K, V>, m: map<K, V>)
    requires o.Covers(m) && o.hand.None?
    requires forall i :: o.Entry(i) <==> 0 <= i < |o.dst| && o.dst[i].Live()
    requires |LiveSet(o.dst)| == |m|
    ensures Holds(o.dst, o.keys[..|o.dst|], o.vals[..|o.dst|], m)
  {
    assert forall i :: 0 <= i < |o.dst| && o.dst[i].Live() ==> o.Entry(i);
  }

  /** At the start every entry is old. */
  lemma OverlayStart<K(!new), V>(slots: seq<Slot>, fresh_: seq<Slot>, keys: seq<K>, vals: seq<V>,
                                 hash: K -> nat, m: map<K, V>)
    requires |slots| <= |keys| == |vals| && 0 < |fresh_| <= |keys|
    requires forall i :: 0 <= i < |fresh_| ==> fresh_[i] == EMPTY
    requires Holds(slots, keys[..|slots|], vals[..|slots|], m)
    ensures Overlay(slots, fresh_, keys, vals, None).Valid(hash, m)
    ensures Overlay(slots, fresh_, keys, vals, None).Count() == |LiveSet(slots)|
  {
    StartCovers(slots, fresh_, keys, vals, m);
  }

  lemma StartCovers<K, V>(slots: seq<Slot>, fresh_: seq<Slot>, keys: seq<K>, vals: seq<V>, m: map<K, V>)
    requires |slots| <= |keys| == |vals| && 0 < |fresh_| <= |keys|
    requires forall i :: 0 <= i < |fresh_| ==> fresh_[i] == EMPTY
    requires Holds(slots, keys[..|slots|], vals[..|slots|], m)
    ensures Overlay(slots, fresh_, keys, vals, None).Covers(m)
  {
    var o := Overlay(slots, fresh_, keys, vals, None);
    assert UsedSet(fresh_) == {};
    assert forall i :: o.Entry(i) <==> 0 <= i < |slots| && slots[i].Live();
    assert forall i :: 0 <= i < |slots| ==> keys[..|slots|][i] == keys[i] && vals[..|slots|][i] == vals[i];
  }
}
