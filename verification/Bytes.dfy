/** What all modules share: bytes, C strings, ASCII case folding, pieces of a stream. */
module Bytes {
  type byte = b: int | 0 <= b < 256

  const NUL: byte := 0
  const HT: byte := 9
  const LF: byte := 10
  const CR: byte := 13
  const SP: byte := 32

  /** A C string: what a `char *` denotes up to its terminator. */
  type CStr = s: seq<byte> | NUL !in s

  /** The C string at the start of a buffer. */
  function Terminated(s: seq<byte>): (t: CStr)
    ensures t <= s && (|t| == |s| || s[|t|] == NUL)
    ensures NUL !in s ==> t == s
  {
    if s == [] || s[0] == NUL then [] else [s[0]] + Terminated(s[1..])
  }

  /** `tolower` in the C locale */
  function LowerByte(b: byte): byte {
    if 65 <= b <= 90 then b + 32 else b
  }

  function Lower(s: seq<byte>): (t: seq<byte>)
    ensures |t| == |s| && forall i :: 0 <= i < |s| ==> t[i] == LowerByte(s[i])
  {
    seq(|s|, i requires 0 <= i < |s| => LowerByte(s[i]))
  }

  /** No capital is left, and nothing but capitals is changed. */
  lemma LowerFolds(s: seq<byte>)
    ensures forall i :: 0 <= i < |s| ==> !(65 <= Lower(s)[i] <= 90) && (!(65 <= s[i] <= 90) ==> Lower(s)[i] == s[i])
  {
  }

  /** Two bytes are the same letter in different cases. */
  predicate CasesOf(a: byte, b: byte) {
    (65 <= a <= 90 && b == a + 32) || (65 <= b <= 90 && a == b + 32)
  }

  /** Equal up to ASCII case, without reference to folding. */
  predicate SameUpToCase(a: seq<byte>, b: seq<byte>) {
    |a| == |b| && forall i :: 0 <= i < |a| ==> a[i] == b[i] || CasesOf(a[i], b[i])
  }

  lemma LowerIsCaseless(a: seq<byte>, b: seq<byte>)
    ensures Lower(a) == Lower(b) <==> SameUpToCase(a, b)
  {
    if Lower(a) == Lower(b) {
      forall i | 0 <= i < |a|
        ensures a[i] == b[i] || CasesOf(a[i], b[i])
      {
        assert Lower(a)[i] == Lower(b)[i];
      }
    }
  }

  lemma LowerIdempotent(s: seq<byte>)
    ensures Lower(Lower(s)) == Lower(s)
  {
  }

  lemma LowerKeepsNul(s: seq<byte>)
    ensures NUL in Lower(s) <==> NUL in s
  {
    if NUL in s {
      var i :| 0 <= i < |s| && s[i] == NUL;
      assert Lower(s)[i] == NUL;
    }
  }

  lemma LowerConcat(a: seq<byte>, b: seq<byte>)
    ensures Lower(a + b) == Lower(a) + Lower(b)
  {
  }

  const HEX_SMALL := "0123456789abcdef"
  const HEX_CAPITAL := "0123456789ABCDEF"

  /** c is written for the hexadecimal digit d, in either case. */
  predicate Spells(c: byte, d: nat)
    requires d < 16
  {
    c == HEX_SMALL[d] as int || c == HEX_CAPITAL[d] as int
  }

  predicate IsHexDigit(c: byte) {
    exists d :: 0 <= d < 16 && Spells(c, d)
  }

  function Max(a: nat, b: nat): nat {
    if a < b then b else a
  }

  /** All pieces of a cut put together. */
  function Flatten<T>(pieces: seq<seq<T>>): seq<T> {
    if pieces == [] then [] else pieces[0] + Flatten(pieces[1..])
  }

  lemma FlattenConcat<T>(a: seq<seq<T>>, b: seq<seq<T>>)
    ensures Flatten(a + b) == Flatten(a) + Flatten(b)
  {
    if a == [] {
      assert a + b == b;
    } else {
      assert (a + b)[1..] == a[1..] + b;
    }
  }
}
