/** laure_buf_t: a growable, always terminated byte buffer. */
module Buf {
  import opened Bytes
  import opened Triangular

  /** Capacities the doubling can reach. */
  ghost predicate IsCapacity(cap: nat) {
    exists k: nat :: cap == 64 * Pow2(k)
  }

  lemma DoubledCapacity(cap: nat)
    requires IsCapacity(cap)
    ensures IsCapacity(2 * cap)
  {
    var k: nat :| cap == 64 * Pow2(k);
    assert 2 * cap == 64 * Pow2(k + 1);
  }

  class Buffer {
    var data: array?<byte>
    var len: nat
    var cap: nat
    /** The largest len + 1 the buffer ever had to hold. */
    ghost var peak: nat

    ghost function Repr(): set<object>
      reads this
    {
      if data == null then {this} else {this, data}
    }

    ghost predicate Valid()
      reads Repr()
    {
      && (data == null ==> len == cap == 0)
      && (data != null ==> data.Length == cap && len + 1 <= cap && data[len] == NUL && IsCapacity(cap))
      && (data != null ==> len + 1 <= peak && cap <= Max(64, 2 * peak))
    }

    ghost function Contents(): seq<byte>
      requires Valid()
      reads Repr()
    {
      if data == null then [] else data[..len]
    }

    constructor ()
      ensures Valid() && fresh(Repr()) && Contents() == [] && data == null
    {
      data, len, cap := null, 0, 0;
      peak := 0;
    }

    /** `laure_buf_append` */
    method Append(bytes: seq<byte>)
      requires Valid()
      modifies Repr()
      ensures Valid() && fresh(Repr() - old(Repr()))
      ensures Contents() == old(Contents()) + bytes
      ensures bytes != [] ==> data != null && peak == Max(old(peak), |old(Contents())| + |bytes| + 1)
      ensures bytes == [] ==> peak == old(peak) && data == old(data) && cap == old(cap)
      ensures data == null <==> old(data) == null && bytes == []
      ensures cap >= old(cap)
    {
      if |bytes| == 0 {
        return;
      }
      var need := len + |bytes| + 1;
      if need > cap {
        var newCap := RoomFor(need, cap);
        Reallocate(newCap);
      }
      peak := Max(peak, need);
      Write(bytes);
    }

    /** The doubling loop. */
    static method RoomFor(need: nat, cap: nat) returns (newCap: nat)
      requires need > cap && (cap == 0 || IsCapacity(cap))
      ensures IsCapacity(newCap) && newCap >= need
      ensures newCap <= Max(64, 2 * need)
    {
      newCap := if cap != 0 then cap * 2 else 64;
      assert IsCapacity(newCap) by {
        assert 64 == 64 * Pow2(0);
        if cap != 0 {
          DoubledCapacity(cap);
        }
      }
      while newCap < need
        invariant IsCapacity(newCap) && newCap <= Max(64, 2 * need)
        invariant 0 < newCap
        decreases need - newCap
      {
        DoubledCapacity(newCap);
        newCap := newCap * 2;
      }
    }

    /** `realloc`, or `malloc` the first time: the bytes in use survive. */
    method Reallocate(newCap: nat)
      requires data == null ==> len == 0
      requires data != null ==> len <= data.Length
      requires len < newCap
      modifies this`data, this`cap
      ensures data != null && fresh(data) && data.Length == newCap == cap
      ensures data[..len] == if old(data) == null then [] else old(data[..len])
    {
      var p := new byte[newCap];
      if data != null {
        for i := 0 to len
          invariant data == old(data) && len == old(len) && fresh(p) && p.Length == newCap
          invariant p[..i] == data[..i] && data[..len] == old(data[..len])
        {
          p[i] := data[i];
        }
      }
      data, cap := p, newCap;
    }

    /** `memcpy` behind the contents, then terminate. */
    method Write(bytes: seq<byte>)
      requires data != null && len + |bytes| + 1 <= data.Length
      modifies this`len, data
      ensures len == old(len) + |bytes|
      ensures data[..len] == old(data[..len]) + bytes
      ensures data[len] == NUL
    {
      for i := 0 to |bytes|
        invariant data == old(data) && len == old(len)
        invariant data[..len + i] == old(data[..len]) + bytes[..i]
      {
        data[len + i] := bytes[i];
      }
      len := len + |bytes|;
      data[len] := NUL;
    }

    /** `data` read as a C string, which it is only once something has been written. */
    method Text() returns (ok: bool, s: CStr)
      requires Valid()
      ensures ok <==> data != null
      ensures ok ==> s == Terminated(Contents())
    {
      if data == null {
        return false, [];
      }
      return true, Terminated(data[..len]);
    }

    /** `laure_buf_reset` */
    method Reset()
      requires Valid()
      modifies Repr()
      ensures Valid() && Repr() == old(Repr())
      ensures Contents() == [] && data == old(data) && peak == old(peak) && cap == old(cap)
    {
      len := 0;
      if data != null {
        data[0] := NUL;
      }
    }

    /** `laure_buf_consume` */
    method Consume(n: nat)
      requires Valid()
      modifies Repr()
      ensures Valid() && Repr() == old(Repr()) && peak == old(peak) && cap == old(cap)
      ensures Contents() == if n >= |old(Contents())| then [] else old(Contents())[n..]
    {
      if n >= len {
        Reset();
        return;
      }
      for i := 0 to len - n
        invariant data == old(data) && len == old(len) && cap == old(cap) && peak == old(peak)
        invariant data[..i] == old(data[n..len])[..i]
        invariant forall j :: i + n <= j < len ==> data[j] == old(data[j])
      {
        data[i] := data[n + i];
      }
      len := len - n;
      data[len] := NUL;
      assert data[..len] == old(data[n..len]) == old(Contents())[n..];
    }
  }
}
