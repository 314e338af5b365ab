/** The header and form map: C strings to C strings on a khash table. */
module StrMap {
  import opened Bytes
  import opened KHash
  import opened KHashBits
  import opened KHashModel

  function Lookup(m: map<CStr, CStr>, k: seq<byte>): Option<CStr> {
    if k in m then Some(m[k]) else None
  }

  /** All keys of m are lower-case, as header assembly leaves them. */
  ghost predicate LowerKeys(m: map<CStr, CStr>) {
    forall k :: k in m ==> Lower(k) == k
  }

  /** v is the value of some key equal to `key` up to ASCII case; None when there is no such key. */
  ghost predicate IsCaselessHit(m: map<CStr, CStr>, key: seq<byte>, v: Option<CStr>) {
    match v
    case None => forall k :: k in m ==> !SameUpToCase(k, key)
    case Some(x) => exists k :: k in m && SameUpToCase(k, key) && m[k] == x
  }

  /** On a map with lower-case keys the caseless answer is unique: the exact lookup of the
      lower-cased key. */
  lemma CaselessIsLowerLookup(m: map<CStr, CStr>, key: seq<byte>, v: Option<CStr>)
    requires LowerKeys(m)
    ensures IsCaselessHit(m, key, v) <==> v == Lookup(m, Lower(key))
  {
    LowerIdempotent(key);
    forall k | k in m
      ensures SameUpToCase(k, key) <==> k == Lower(key)
    {
      LowerIsCaseless(k, key);
    }
  }

  /** One insertion. */
  datatype Entry = Entry(key: CStr, val: CStr)

  function InsertAll(m: map<CStr, CStr>, es: seq<Entry>): map<CStr, CStr> {
    if es == [] then m else InsertAll(m, es[..|es| - 1])[es[|es| - 1].key := es[|es| - 1].val]
  }

  /** Inserting never makes the map smaller. */
  lemma {:induction false} InsertAllGrows(m: map<CStr, CStr>, es: seq<Entry>)
    ensures |m| <= |InsertAll(m, es)|
    decreases |es|
  {
    if es != [] {
      var n := |es| - 1;
      InsertAllGrows(m, es[..n]);
      var before := InsertAll(m, es[..n]);
      assert before[es[n].key := es[n].val].Keys == before.Keys + {es[n].key};
    }
  }

  lemma InsertLast(m: map<CStr, CStr>, es: seq<Entry>, e: Entry)
    ensures InsertAll(m, es + [e]) == InsertAll(m, es)[e.key := e.val]
  {
    assert (es + [e])[..|es|] == es;
  }

  /** Inserting from the front. */
  lemma {:induction false} InsertFirst(m: map<CStr, CStr>, e: Entry, es: seq<Entry>)
    ensures InsertAll(m, [e] + es) == InsertAll(m[e.key := e.val], es)
    decreases |es|
  {
    if es == [] {
      assert ([e] + es)[..0] == [];
    } else {
      var n := |es| - 1;
      assert ([e] + es)[..n + 1] == [e] + es[..n];
      InsertFirst(m, e, es[..n]);
    }
  }

  /** Entry i is the last one for its key. */
  predicate IsLast(es: seq<Entry>, i: nat)
    requires i < |es|
  {
    forall j :: i < j < |es| ==> es[j].key != es[i].key
  }

  /** Inserting is last-wins: the keys are those inserted, each with the value of its last entry. */
  lemma {:induction false} InsertAllIsLastWins(es: seq<Entry>, k: CStr)
    ensures k in InsertAll(map[], es) <==> exists i :: 0 <= i < |es| && es[i].key == k
    ensures forall i :: 0 <= i < |es| && es[i].key == k && IsLast(es, i) ==> InsertAll(map[], es)[k] == es[i].val
    decreases |es|
  {
    if es != [] {
      var n := |es| - 1;
      var before := es[..n];
      InsertAllIsLastWins(before, k);
      if es[n].key != k {
        forall i | 0 <= i < |es| && es[i].key == k && IsLast(es, i)
          ensures InsertAll(map[], es)[k] == es[i].val
        {
          assert before[i] == es[i];
          assert IsLast(before, i);
        }
        if k in InsertAll(map[], before) {
          var i :| 0 <= i < |before| && before[i].key == k;
          assert es[i].key == k;
        }
      }
    }
  }

  /** Every inserted key has a last entry. */
  lemma {:induction false} LastEntry(es: seq<Entry>, i: nat) returns (j: nat)
    requires i < |es|
    ensures i <= j < |es| && es[j].key == es[i].key && IsLast(es, j)
    decreases |es| - i
  {
    if IsLast(es, i) {
      j := i;
    } else {
      var n :| i < n < |es| && es[n].key == es[i].key;
      j := LastEntry(es, n);
    }
  }

  /** The value of the first live bucket from x on whose key equals `key` up to case. */
  ghost function FirstMatch(slots: seq<Slot>, keys: seq<CStr>, vals: seq<CStr>, key: seq<byte>, x: nat): Option<CStr>
    requires |slots| == |keys| == |vals| && x <= |slots|
    decreases |slots| - x
  {
    if x == |slots| then None
    else if slots[x].Live() && SameUpToCase(keys[x], key) then Some(vals[x])
    else FirstMatch(slots, keys, vals, key, x + 1)
  }

  /** The first match is some live key's value, and there is none only if no live key matches. */
  lemma {:induction false} FirstMatchFinds(slots: seq<Slot>, keys: seq<CStr>, vals: seq<CStr>, key: seq<byte>, x: nat)
    requires |slots| == |keys| == |vals| && x <= |slots|
    ensures match FirstMatch(slots, keys, vals, key, x)
      case None => forall i :: x <= i < |slots| && slots[i].Live() ==> !SameUpToCase(keys[i], key)
      case Some(v) => exists i :: x <= i < |slots| && slots[i].Live() && SameUpToCase(keys[i], key) && vals[i] == v
    decreases |slots| - x
  {
    hide SameUpToCase;
    if x < |slots| {
      FirstMatchFinds(slots, keys, vals, key, x + 1);
    }
  }

  lemma FirstMatchIsHit(slots: seq<Slot>, keys: seq<CStr>, vals: seq<CStr>, m: map<CStr, CStr>, key: seq<byte>)
    requires |slots| == |keys| == |vals| && Holds(slots, keys, vals, m)
    ensures IsCaselessHit(m, key, FirstMatch(slots, keys, vals, key, 0))
  {
    hide SameUpToCase;
    FirstMatchFinds(slots, keys, vals, key, 0);
    LiveKeysAreAll(slots, keys, vals, m);
  }

  class Map {
    const h: Table<CStr, CStr>

    ghost predicate Valid()
      reads this, h, h.Repr()
    {
      h.Valid()
    }

    ghost function Contents(): map<CStr, CStr>
      reads h
    {
      h.M
    }

    constructor (hash: CStr -> nat)
      ensures Valid() && fresh(h) && fresh(h.Repr()) && Contents() == map[] && h.nBuckets == 0
    {
      h := new Table<CStr, CStr>(hash);
    }

    /** `laure_strmap_set` and `laure_strmap_set_take`, which differ in who owns the value's
        memory only. */
    method Set(key: CStr, val: CStr)
      requires Valid() && h.CanPut()
      modifies h.Repr()
      ensures Valid() && fresh(h.Repr() - old(h.Repr()))
      ensures Contents() == old(Contents())[key := val]
    {
      hide Holds, Chained, UsedSet;
      var x, ret := h.Put(key);
      h.SetVal(x, val);
    }

    /** `laure_strmap_get` */
    method Get(key: CStr) returns (v: Option<CStr>)
      requires Valid()
      ensures v == Lookup(Contents(), key)
    {
      var x := h.Get(key);
      v := if x == h.nBuckets then None else Some(h.vals[x]);
    }

    /** `laure_strmap_get_ci`: the value of the first live bucket whose key matches up to case. */
    method GetCi(key: CStr) returns (v: Option<CStr>)
      requires Valid()
      ensures v == FirstMatch(h.Slots(), h.keys[..], h.vals[..], key, 0)
      ensures IsCaselessHit(Contents(), key, v)
    {
      hide IsCaselessHit, SameUpToCase, Lower, Holds, Chained;
      FirstMatchIsHit(h.Slots(), h.keys[..], h.vals[..], h.M, key);
      for x := 0 to h.nBuckets
        invariant FirstMatch(h.Slots(), h.keys[..], h.vals[..], key, 0) == FirstMatch(h.Slots(), h.keys[..], h.vals[..], key, x)
      {
        var live := h.LiveAt(x);
        LowerIsCaseless(h.keys[x], key);
        if live && Lower(h.keys[x]) == Lower(key) {
          return Some(h.vals[x]);
        }
      }
      return None;
    }

    /** `laure_strmap_clear` */
    method Clear()
      requires Valid()
      modifies h.Repr()
      ensures Valid() && h.Repr() == old(h.Repr())
      ensures Contents() == map[] && h.nBuckets == old(h.nBuckets)
    {
      h.Clear();
    }

    /** `kh_get` and `kh_del` */
    method Delete(key: CStr)
      requires Valid()
      modifies h.Repr()
      ensures Valid() && h.Repr() == old(h.Repr())
      ensures Contents() == old(Contents()) - {key} && h.nBuckets == old(h.nBuckets)
    {
      hide Holds, Chained, UsedSet;
      var x := h.Get(key);
      h.Del(x);
    }

    /** `kh_resize` */
    method Resize(buckets: nat)
      requires Valid() && buckets < UINT32_RANGE
      modifies h.Repr()
      ensures Valid() && fresh(h.Repr() - old(h.Repr()))
      ensures Contents() == old(Contents())
    {
      h.Resize(buckets);
    }
  }

  /* ---- whole runs -------------------------------------------------------------------- */

  datatype Op = Set(key: CStr, val: CStr) | Get(key: CStr) | GetCi(key: CStr) | Delete(key: CStr) | Clear | Resize(buckets: nat)

  function Apply(m: map<CStr, CStr>, op: Op): map<CStr, CStr> {
    match op
    case Set(k, v) => m[k := v]
    case Delete(k) => m - {k}
    case Clear => map[]
    case _ => m
  }

  function ApplyAll(m: map<CStr, CStr>, ops: seq<Op>): map<CStr, CStr> {
    if ops == [] then m else Apply(ApplyAll(m, ops[..|ops| - 1]), ops[|ops| - 1])
  }

  /** The answer of an operation on a finite map. */
  ghost predicate Answers(m: map<CStr, CStr>, op: Op, v: Option<CStr>) {
    match op
    case Get(k) => v == Lookup(m, k)
    case GetCi(k) => IsCaselessHit(m, k, v)
    case _ => v == None
  }

  lemma ApplyNone(m: map<CStr, CStr>, ops: seq<Op>)
    ensures ApplyAll(m, ops[..0]) == m
  {
  }

  lemma ApplyNext(m: map<CStr, CStr>, ops: seq<Op>, n: nat)
    requires n < |ops|
    ensures ApplyAll(m, ops[..n + 1]) == Apply(ApplyAll(m, ops[..n]), ops[n])
  {
    assert ops[..n + 1][..n] == ops[..n];
  }

  /** Whether an operation may be asked of a map: resizes are given a khint_t, and a set needs room
      in the table, which it has whenever fewer than 2^30 keys are live. */
  predicate Fits(m: map<CStr, CStr>, op: Op) {
    (op.Resize? ==> op.buckets < UINT32_RANGE) && (op.Set? ==> |m| < MAX_GROWABLE)
  }

  /** Any run of operations of any length, including explicit resizes, answers and ends as the same
      run on a finite map. */
  method Run(t: Map, ops: seq<Op>) returns (answers: seq<Option<CStr>>)
    requires t.Valid()
    requires forall i :: 0 <= i < |ops| ==> Fits(ApplyAll(t.Contents(), ops[..i]), ops[i])
    modifies t.h.Repr()
    ensures t.Valid() && t.Contents() == ApplyAll(old(t.Contents()), ops)
    ensures |answers| == |ops|
    ensures forall i :: 0 <= i < |ops| ==> Answers(ApplyAll(old(t.Contents()), ops[..i]), ops[i], answers[i])
  {
    hide Answers, Apply, ApplyAll, Fits, Holds, Chained, UsedSet;
    answers := [];
    ghost var m := t.Contents();
    ApplyNone(m, ops);
    for n := 0 to |ops|
      invariant t.Valid() && fresh(t.h.Repr() - old(t.h.Repr()))
      invariant t.Contents() == ApplyAll(m, ops[..n])
      invariant |answers| == n
      invariant forall i :: 0 <= i < n ==> Answers(ApplyAll(m, ops[..i]), ops[i], answers[i])
    {
      ApplyNext(m, ops, n);
      var v := Step(t, ops[n]);
      answers := answers + [v];
    }
    assert ops[..|ops|] == ops;
  }

  method Step(t: Map, op: Op) returns (v: Option<CStr>)
    requires t.Valid() && Fits(t.Contents(), op)
    modifies t.h.Repr()
    ensures t.Valid() && fresh(t.h.Repr() - old(t.h.Repr()))
    ensures t.Contents() == Apply(old(t.Contents()), op)
    ensures Answers(old(t.Contents()), op, v)
  {
    v := None;
    match op
    case Set(k, val) =>
      t.h.FewKeysCanPut();
      t.Set(k, val);
    case Get(k) =>
      v := t.Get(k);
    case GetCi(k) =>
      v := t.GetCi(k);
    case Delete(k) =>
      t.Delete(k);
    case Clear =>
      t.Clear();
    case Resize(n) =>
      t.Resize(n);
  }
}
