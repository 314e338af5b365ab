/** Form decoding: percent-decoding and the splitting of a query string into the map (URL Standard,
    application/x-www-form-urlencoded). */
module Form {
  import opened Bytes
  import opened KHash
  import opened StrMap

  const PLUS: byte := 43
  const PERCENT: byte := 37
  const AMP: byte := 38
  const EQUALS: byte := 61

  /* ---- percent-decoding --------------------------------------------------------------------------- */

  /** `hv`: the value of a hexadecimal digit, -1 for any other byte. */
  function Hv(c: byte): (v: int)
    ensures -1 <= v < 16
  {
    if 48 <= c <= 57 then c - 48
    else if 97 <= c <= 102 then c - 97 + 10
    else if 65 <= c <= 70 then c - 65 + 10
    else -1
  }

  predicate IsEscape(s: seq<byte>) {
    |s| > 2 && s[0] == PERCENT && Hv(s[1]) >= 0 && Hv(s[2]) >= 0
  }

  /** The byte that the start of s decodes to, and how many bytes it took. */
  function First(s: seq<byte>): (r: (byte, nat))
    requires s != []
    ensures 1 <= r.1 <= |s|
  {
    if s[0] == PLUS then (SP, 1)
    else if IsEscape(s) then (Hv(s[1]) * 16 + Hv(s[2]), 3)
    else (s[0], 1)
  }

  function UrlDecode(s: seq<byte>): (r: seq<byte>)
    ensures |r| <= |s|
  {
    if s == [] then [] else [First(s).0] + UrlDecode(s[First(s).1..])
  }

  /** `laure_url_decode`: the decoded bytes with a terminator, never longer than the input. */
  method Decode(s: seq<byte>) returns (buf: array<byte>, j: nat)
    ensures fresh(buf) && j <= |s| && j < buf.Length && buf[j] == NUL
    ensures buf[..j] == UrlDecode(s)
  {
    hide First;
    buf := new byte[|s| + 1];
    j := 0;
    var i := 0;
    assert s[0..] == s;
    while i < |s|
      invariant j <= i <= |s|
      invariant buf[..j] + UrlDecode(s[i..]) == UrlDecode(s)
      decreases |s| - i
    {
      var b, width := DecodeAt(s, i);
      assert s[i..][width..] == s[i + width..];
      ghost var done := buf[..j];
      buf[j] := b;
      assert buf[..j + 1] == done + [b];
      assert buf[..j + 1] + UrlDecode(s[i + width..]) == done + ([b] + UrlDecode(s[i + width..]));
      i, j := i + width, j + 1;
    }
    buf[j] := NUL;
  }

  /** One round of the loop. */
  method DecodeAt(s: seq<byte>, i: nat) returns (b: byte, width: nat)
    requires i < |s|
    ensures (b, width) == First(s[i..])
  {
    b, width := s[i], 1;
    if s[i] == PLUS {
      b := SP;
    } else if s[i] == PERCENT && i + 2 < |s| {
      var high, low := Hv(s[i + 1]), Hv(s[i + 2]);
      if high >= 0 && low >= 0 {
        b, width := high * 16 + low, 3;
      }
    }
  }

  /* ---- what decoding means, symbol by symbol ---------------------------------------------------------- */

  lemma HvSpells(c: byte)
    ensures forall d :: 0 <= d < 16 ==> (Hv(c) == d <==> Spells(c, d))
    ensures Hv(c) >= 0 <==> IsHexDigit(c)
  {
    if Hv(c) >= 0 {
      assert Spells(c, Hv(c));
    }
  }

  /** A plus sign, an escape with its two digits, or a byte that stands for itself. */
  datatype Symbol = Space | Escape(high: byte, low: byte, b: byte) | Self(b: byte)

  function Spelling(t: Symbol): seq<byte> {
    match t
    case Space => [PLUS]
    case Escape(high, low, _) => [PERCENT, high, low]
    case Self(b) => [b]
  }

  function Meaning(t: Symbol): byte {
    match t
    case Space => SP
    case Escape(_, _, b) => b
    case Self(b) => b
  }

  /** t may stand before `rest`: a percent sign stands for itself unless two digits follow it. */
  predicate MayStand(t: Symbol, rest: seq<byte>) {
    match t
    case Space => true
    case Escape(high, low, b) => Spells(high, b / 16) && Spells(low, b % 16)
    case Self(b) => b != PLUS && (b == PERCENT && |rest| >= 2 ==> !(IsHexDigit(rest[0]) && IsHexDigit(rest[1])))
  }

  function Spelled(ts: seq<Symbol>): seq<byte> {
    if ts == [] then [] else Spelling(ts[0]) + Spelled(ts[1..])
  }

  function Meant(ts: seq<Symbol>): (r: seq<byte>)
    ensures |r| == |ts|
  {
    seq(|ts|, i requires 0 <= i < |ts| => Meaning(ts[i]))
  }

  predicate Sound(ts: seq<Symbol>) {
    ts == [] || (MayStand(ts[0], Spelled(ts[1..])) && Sound(ts[1..]))
  }

  lemma FirstSymbol(t: Symbol, rest: seq<byte>)
    requires MayStand(t, rest)
    ensures First(Spelling(t) + rest) == (Meaning(t), |Spelling(t)|)
  {
    hide Hv, Spells, IsHexDigit;
    var s := Spelling(t) + rest;
    match t
    case Space =>
    case Escape(high, low, b) =>
      HvSpells(high);
      HvSpells(low);
      assert b / 16 * 16 + b % 16 == b;
    case Self(b) =>
      if |rest| >= 2 {
        HvSpells(rest[0]);
        HvSpells(rest[1]);
        assert s[1] == rest[0] && s[2] == rest[1];
      }
  }

  /** Every spelling decodes to its meaning: pluses, escapes with digits of either case, and percent
      signs that begin no escape. */
  lemma {:induction false} DecodeSymbols(ts: seq<Symbol>)
    requires Sound(ts)
    ensures UrlDecode(Spelled(ts)) == Meant(ts)
    decreases |ts|
  {
    hide MayStand, First;
    if ts != [] {
      FirstSymbol(ts[0], Spelled(ts[1..]));
      DecodeSymbols(ts[1..]);
      assert Spelled(ts)[|Spelling(ts[0])|..] == Spelled(ts[1..]);
      assert Meant(ts) == [Meaning(ts[0])] + Meant(ts[1..]);
    }
  }

  /** Every byte string is such a spelling. */
  lemma {:induction false} EveryStringIsSpelled(s: seq<byte>) returns (ts: seq<Symbol>)
    ensures Sound(ts) && Spelled(ts) == s
    decreases |s|
  {
    if s == [] {
      ts := [];
    } else {
      var t := ReadSymbol(s);
      var rest := EveryStringIsSpelled(s[|Spelling(t)|..]);
      ts := [t] + rest;
      assert ts[1..] == rest;
    }
  }

  lemma ReadSymbol(s: seq<byte>) returns (t: Symbol)
    requires s != []
    ensures Spelling(t) <= s && |Spelling(t)| > 0 && MayStand(t, s[|Spelling(t)|..])
  {
    hide Spells;
    if s[0] == PLUS {
      t := Space;
    } else if s[0] == PERCENT && |s| >= 3 && IsHexDigit(s[1]) && IsHexDigit(s[2]) {
      var d, e :| 0 <= d < 16 && 0 <= e < 16 && Spells(s[1], d) && Spells(s[2], e);
      t := Escape(s[1], s[2], d * 16 + e);
    } else {
      t := Self(s[0]);
    }
  }

  /* ---- the serialiser of the standard --------------------------------------------------------------- */

  predicate Unreserved(b: byte) {
    48 <= b <= 57 || 65 <= b <= 90 || 97 <= b <= 122 || b == 42 || b == 45 || b == 46 || b == 95
  }

  function HexUpper(d: nat): (c: byte)
    requires d < 16
    ensures Hv(c) == d && Unreserved(c)
  {
    if d < 10 then 48 + d else 55 + d
  }

  function EncodeByte(b: byte): (r: seq<byte>)
    ensures |r| == if Unreserved(b) || b == SP then 1 else 3
  {
    if Unreserved(b) then [b]
    else if b == SP then [PLUS]
    else [PERCENT, HexUpper(b / 16), HexUpper(b % 16)]
  }

  function Encode(s: seq<byte>): seq<byte> {
    if s == [] then [] else EncodeByte(s[0]) + Encode(s[1..])
  }

  lemma DecodeByte(b: byte, rest: seq<byte>)
    ensures UrlDecode(EncodeByte(b) + rest) == [b] + UrlDecode(rest)
  {
    var s := EncodeByte(b) + rest;
    if Unreserved(b) || b == SP {
      assert s[1..] == rest;
    } else {
      assert s[3..] == rest;
      assert b / 16 * 16 + b % 16 == b;
    }
  }

  /** Decoding goes through an encoded prefix unchanged. */
  lemma {:induction false} DecodeEncoded(s: seq<byte>, rest: seq<byte>)
    ensures UrlDecode(Encode(s) + rest) == s + UrlDecode(rest)
    decreases |s|
  {
    hide UrlDecode, EncodeByte;
    if s == [] {
      assert Encode(s) + rest == rest;
    } else {
      DecodeByte(s[0], Encode(s[1..]) + rest);
      DecodeEncoded(s[1..], rest);
      assert Encode(s) + rest == EncodeByte(s[0]) + (Encode(s[1..]) + rest);
      assert s == [s[0]] + s[1..];
    }
  }

  /** Every byte string survives encoding and decoding. */
  lemma DecodeInvertsEncode(s: seq<byte>)
    ensures UrlDecode(Encode(s)) == s
  {
    DecodeEncoded(s, []);
    assert Encode(s) + [] == Encode(s);
  }

  lemma {:induction false} EncodeConcat(a: seq<byte>, b: seq<byte>)
    ensures Encode(a + b) == Encode(a) + Encode(b)
    decreases |a|
  {
    if a == [] {
      assert a + b == b;
    } else {
      assert (a + b)[1..] == a[1..] + b;
      EncodeConcat(a[1..], b);
    }
  }

  lemma {:induction false} EncodedBytes(s: seq<byte>)
    ensures forall i :: 0 <= i < |Encode(s)| ==> Unreserved(Encode(s)[i]) || Encode(s)[i] == PLUS || Encode(s)[i] == PERCENT
    decreases |s|
  {
    if s != [] {
      EncodedBytes(s[1..]);
    }
  }

  /* ---- splitting ------------------------------------------------------------------------------------ */

  /** `memchr`: where b first occurs; the length when it does not. */
  function Find(s: seq<byte>, b: byte): (n: nat)
    ensures n <= |s| && b !in s[..n] && (n < |s| ==> s[n] == b)
  {
    if s == [] || s[0] == b then 0 else 1 + Find(s[1..], b)
  }

  lemma {:induction false} FindIs(s: seq<byte>, b: byte, n: nat)
    requires n <= |s| && b !in s[..n] && (n == |s| || s[n] == b)
    ensures Find(s, b) == n
    decreases n
  {
    if n > 0 {
      assert s[..n][0] == s[0];
      forall i | 0 <= i < n - 1
        ensures s[1..][i] != b
      {
        assert s[..n][i + 1] == s[1..][i];
      }
      FindIs(s[1..], b, n - 1);
    }
  }

  /** Where the value of a pair is decoded from. The source decodes it from the start of the pair;
      the standard says after the equals sign. */
  datatype ValueFrom = PairStart | AfterEquals

  datatype Pair = Pair(key: seq<byte>, val: seq<byte>)

  function DecodePair(s: seq<byte>, from: ValueFrom): Pair {
    var e := Find(s, EQUALS);
    if e == |s| then Pair(UrlDecode(s), [])
    else Pair(UrlDecode(s[..e]), UrlDecode(if from.PairStart? then s[..|s| - e - 1] else s[e + 1..]))
  }

  /** The pairs of a query string; pairs with an empty key are dropped. */
  function Parse(qs: seq<byte>, from: ValueFrom): seq<Pair>
    decreases |qs|
  {
    if qs == [] then []
    else
      var a := Find(qs, AMP);
      var pair := DecodePair(qs[..a], from);
      (if pair.key != [] then [pair] else []) + (if a == |qs| then [] else Parse(qs[a + 1..], from))
  }

  /** The entry a pair becomes: both sides are read as C strings. */
  function EntryOf(p: Pair): Entry {
    Entry(Terminated(p.key), Terminated(p.val))
  }

  function Entries(ps: seq<Pair>): (es: seq<Entry>)
    ensures |es| == |ps| && forall i :: 0 <= i < |ps| ==> es[i] == EntryOf(ps[i])
  {
    seq(|ps|, i requires 0 <= i < |ps| => EntryOf(ps[i]))
  }

  /** What follows the first ampersand. */
  function Tail(qs: seq<byte>): (r: seq<byte>)
    requires qs != []
    ensures |r| < |qs|
  {
    var a := Find(qs, AMP);
    if a == |qs| then [] else qs[a + 1..]
  }

  /** The map after the pairs of a query string have been put into it, as the source reads them. */
  function Filled(m: map<CStr, CStr>, qs: seq<byte>): map<CStr, CStr> {
    InsertAll(m, Entries(Parse(qs, PairStart)))
  }

  /** `laure_parse_qs`: `rest` is what is still to be read. */
  method ParseQs(qs: seq<byte>, out: Map)
    requires out.Valid() && |Filled(out.Contents(), qs)| < MAX_GROWABLE
    modifies out.h.Repr()
    ensures out.Valid() && fresh(out.h.Repr() - old(out.h.Repr()))
    ensures out.Contents() == Filled(old(out.Contents()), qs)
  {
    hide Filled, Tail;
    var rest := qs;
    while rest != []
      invariant out.Valid() && fresh(out.h.Repr() - old(out.h.Repr()))
      invariant Filled(out.Contents(), rest) == Filled(old(out.Contents()), qs)
      decreases |rest|
    {
      FilledGrows(out.Contents(), rest);
      InsertHead(rest, out);
      rest := Tail(rest);
    }
    ParseNone(out.Contents());
  }

  lemma FilledGrows(m: map<CStr, CStr>, qs: seq<byte>)
    ensures |m| <= |Filled(m, qs)|
  {
    hide InsertAll, Parse;
    InsertAllGrows(m, Entries(Parse(qs, PairStart)));
  }

  lemma ParseNone(m: map<CStr, CStr>)
    ensures Filled(m, []) == m
  {
  }

  lemma ParseUnfolds(qs: seq<byte>, pair: Pair, from: ValueFrom)
    requires qs != [] && pair == DecodePair(qs[..Find(qs, AMP)], from)
    ensures Parse(qs, from) == if pair.key == [] then Parse(Tail(qs), from) else [pair] + Parse(Tail(qs), from)
  {
    hide DecodePair, Find;
    if Find(qs, AMP) == |qs| {
      assert Parse([], from) == [];
    }
  }

  lemma PutFirst(m: map<CStr, CStr>, pair: Pair, more: seq<Pair>)
    ensures InsertAll(m, Entries([pair] + more)) == InsertAll(m[EntryOf(pair).key := EntryOf(pair).val], Entries(more))
  {
    hide InsertAll, EntryOf;
    assert Entries([pair] + more) == [EntryOf(pair)] + Entries(more);
    InsertFirst(m, EntryOf(pair), Entries(more));
  }

  lemma ParseOne(m: map<CStr, CStr>, qs: seq<byte>)
    requires qs != []
    ensures var pair := DecodePair(qs[..Find(qs, AMP)], PairStart);
      Filled(m, qs) == Filled(if pair.key == [] then m else m[EntryOf(pair).key := EntryOf(pair).val], Tail(qs))
  {
    hide InsertAll, DecodePair, EntryOf, Find, Parse, Tail, Entries;
    var pair := DecodePair(qs[..Find(qs, AMP)], PairStart);
    ParseUnfolds(qs, pair, PairStart);
    if pair.key != [] {
      PutFirst(m, pair, Parse(Tail(qs), PairStart));
    }
  }

  /** Take the first pair of what is left. */
  method InsertHead(rest: seq<byte>, out: Map)
    requires out.Valid() && |out.Contents()| < MAX_GROWABLE
    requires rest != []
    modifies out.h.Repr()
    ensures out.Valid() && fresh(out.h.Repr() - old(out.h.Repr()))
    ensures Filled(out.Contents(), Tail(rest)) == Filled(old(out.Contents()), rest)
  {
    hide Filled, DecodePair, Tail, Find, EntryOf;
    ParseOne(out.Contents(), rest);
    InsertOne(rest[..Find(rest, AMP)], out);
  }

  /** Decode one pair and put it into the map, unless its key is empty. */
  method InsertOne(s: seq<byte>, out: Map)
    requires out.Valid() && |out.Contents()| < MAX_GROWABLE
    modifies out.h.Repr()
    ensures out.Valid() && fresh(out.h.Repr() - old(out.h.Repr()))
    ensures var pair := DecodePair(s, PairStart);
      out.Contents() == if pair.key == [] then old(out.Contents()) else old(out.Contents())[EntryOf(pair).key := EntryOf(pair).val]
  {
    hide DecodePair;
    var pair := OnePair(s);
    if |pair.key| > 0 {
      out.h.FewKeysCanPut();
      out.Set(Terminated(pair.key), Terminated(pair.val));
    }
  }

  /** One pair, decoded as the source does. */
  method OnePair(s: seq<byte>) returns (pair: Pair)
    ensures pair == DecodePair(s, PairStart)
  {
    var eq := Find(s, EQUALS);
    if eq < |s| {
      var k, kl := Decode(s[..eq]);
      var v, vl := Decode(s[..|s| - eq - 1]);
      pair := Pair(k[..kl], v[..vl]);
    } else {
      var k, kl := Decode(s);
      pair := Pair(k[..kl], []);
    }
  }

  /* ---- what parsing means, item by item ------------------------------------------------------------------ */

  /** What stands between two ampersands: a key alone, or a key and a value. */
  datatype Item = Bare(key: seq<byte>) | Full(key: seq<byte>, val: seq<byte>)

  predicate IsItem(t: Item) {
    AMP !in t.key && EQUALS !in t.key && (t.Full? ==> AMP !in t.val)
  }

  predicate AreItems(ts: seq<Item>) {
    forall i :: 0 <= i < |ts| ==> IsItem(ts[i])
  }

  function ItemBytes(t: Item): seq<byte> {
    if t.Bare? then t.key else t.key + ([EQUALS] + t.val)
  }

  function Joined(ts: seq<Item>): seq<byte> {
    if ts == [] then [] else if |ts| == 1 then ItemBytes(ts[0]) else ItemBytes(ts[0]) + ([AMP] + Joined(ts[1..]))
  }

  /** A key alone has the empty value. The source reads a value from the start of its item, as many bytes
      as the value has. */
  function ItemPair(t: Item, from: ValueFrom): Pair {
    match t
    case Bare(k) => Pair(UrlDecode(k), [])
    case Full(k, v) => Pair(UrlDecode(k), UrlDecode(if from.AfterEquals? then v else ItemBytes(t)[..|v|]))
  }

  /** Items with an empty key are dropped. */
  function ItemPairs(ts: seq<Item>, from: ValueFrom): seq<Pair> {
    if ts == [] then []
    else (if ItemPair(ts[0], from).key == [] then [] else [ItemPair(ts[0], from)]) + ItemPairs(ts[1..], from)
  }

  lemma ItemDecoded(t: Item, from: ValueFrom)
    requires IsItem(t)
    ensures DecodePair(ItemBytes(t), from) == ItemPair(t, from) && AMP !in ItemBytes(t)
  {
    hide UrlDecode;
    if t.Bare? {
      FindIs(t.key, EQUALS, |t.key|);
    } else {
      FindAfter(t.key, EQUALS, t.val);
      assert ItemBytes(t)[..|t.key|] == t.key && ItemBytes(t)[|t.key| + 1..] == t.val;
    }
  }

  /** Any query string, as the pairs of its items. */
  lemma {:induction false} ParseItems(ts: seq<Item>, from: ValueFrom)
    requires AreItems(ts)
    ensures Parse(Joined(ts), from) == ItemPairs(ts, from)
    decreases |ts|
  {
    hide DecodePair, ItemPair, ItemBytes, Parse, IsItem;
    ParseEmpty(from);
    if ts != [] {
      var s := ItemBytes(ts[0]);
      ItemDecoded(ts[0], from);
      if |ts| == 1 {
        LastItem(s, from);
        assert ts[1..] == [];
      } else {
        FirstItem(s, Joined(ts[1..]), from);
        ParseItems(ts[1..], from);
      }
    }
  }

  lemma LastItem(s: seq<byte>, from: ValueFrom)
    requires AMP !in s
    ensures Parse(s, from) == if DecodePair(s, from).key == [] then [] else [DecodePair(s, from)]
  {
    hide DecodePair;
    FindIs(s, AMP, |s|);
    if s == [] {
      NothingDecodes(from);
    } else {
      assert s[..|s|] == s;
    }
  }

  lemma NothingDecodes(from: ValueFrom)
    ensures DecodePair([], from) == Pair([], [])
  {
  }

  lemma FirstItem(s: seq<byte>, rest: seq<byte>, from: ValueFrom)
    requires AMP !in s
    ensures Parse(s + ([AMP] + rest), from) ==
            (if DecodePair(s, from).key == [] then [] else [DecodePair(s, from)]) + Parse(rest, from)
  {
    hide DecodePair;
    var all := s + ([AMP] + rest);
    FindAfter(s, AMP, rest);
    assert all[..|s|] == s && all[|s| + 1..] == rest;
  }

  /** Every query string is made of items. */
  lemma {:induction false} EveryStringIsItems(qs: seq<byte>) returns (ts: seq<Item>)
    ensures AreItems(ts) && Joined(ts) == qs && ts != []
    decreases |qs|
  {
    var a := Find(qs, AMP);
    var t := ReadItem(qs[..a]);
    ts := [t];
    if a < |qs| {
      var rest := EveryStringIsItems(qs[a + 1..]);
      ts := [t] + rest;
      assert ts[1..] == rest && qs == qs[..a] + ([AMP] + qs[a + 1..]);
    }
  }

  lemma ReadItem(s: seq<byte>) returns (t: Item)
    requires AMP !in s
    ensures IsItem(t) && ItemBytes(t) == s
  {
    var e := Find(s, EQUALS);
    if e == |s| {
      t := Bare(s);
      assert s[..e] == s;
    } else {
      t := Full(s[..e], s[e + 1..]);
    }
  }

  /** `flag`, without an equals sign, is a key with the empty value; `a%2fb` is `a/b`. */
  lemma BareExample(from: ValueFrom)
    ensures Parse([102, 108, 97, 103], from) == [Pair([102, 108, 97, 103], [])]
    ensures Parse([97, 37, 50, 102, 98], from) == [Pair([97, 47, 98], [])]
  {
    hide UrlDecode, Parse, Sound, Spelled;
    var flag, slash := [Self(102), Self(108), Self(97), Self(103)], [Self(97), Escape(50, 102, 47), Self(98)];
    PlainSpelling();
    DecodeSymbols(flag);
    DecodeSymbols(slash);
    assert Meant(flag) == [102, 108, 97, 103] && Meant(slash) == [97, 47, 98];
    LastItem([102, 108, 97, 103], from);
    LastItem([97, 37, 50, 102, 98], from);
    FindIs([102, 108, 97, 103], EQUALS, 4);
    FindIs([97, 37, 50, 102, 98], EQUALS, 5);
  }

  lemma PlainSpelling()
    ensures var flag := [Self(102), Self(108), Self(97), Self(103)]; Sound(flag) && Spelled(flag) == [102, 108, 97, 103]
    ensures var slash := [Self(97), Escape(50, 102, 47), Self(98)]; Sound(slash) && Spelled(slash) == [97, 37, 50, 102, 98]
  {
    var flag, slash := [Self(102), Self(108), Self(97), Self(103)], [Self(97), Escape(50, 102, 47), Self(98)];
    assert flag[1..] == [Self(108), Self(97), Self(103)] && flag[1..][1..] == [Self(97), Self(103)];
    assert flag[1..][1..][1..] == [Self(103)] && [Self(103)][1..] == [];
    assert slash[1..] == [Escape(50, 102, 47), Self(98)] && slash[1..][1..] == [Self(98)] && [Self(98)][1..] == [];
    assert Spells(50, 2) && Spells(102, 15);
  }

  /* ---- the round trip ------------------------------------------------------------------------------- */

  function SerialisePair(p: Pair): seq<byte> {
    Encode(p.key) + ([EQUALS] + Encode(p.val))
  }

  function Serialise(ps: seq<Pair>): seq<byte> {
    if ps == [] then []
    else if |ps| == 1 then SerialisePair(ps[0])
    else SerialisePair(ps[0]) + ([AMP] + Serialise(ps[1..]))
  }

  lemma FindAfter(a: seq<byte>, b: byte, rest: seq<byte>)
    requires b !in a
    ensures Find(a + ([b] + rest), b) == |a| && Find(a, b) == |a|
  {
    var s := a + ([b] + rest);
    assert s[..|a|] == a && a[..|a|] == a;
    FindIs(s, b, |a|);
    FindIs(a, b, |a|);
  }

  lemma NoSeparators(p: Pair)
    ensures EQUALS !in Encode(p.key) && AMP !in SerialisePair(p) && |SerialisePair(p)| > 0
  {
    EncodedBytes(p.key);
    EncodedBytes(p.val);
  }

  /** What one serialised pair is decoded to. */
  lemma PairDecoded(p: Pair, from: ValueFrom)
    ensures var q := DecodePair(SerialisePair(p), from);
      && q.key == p.key
      && q.val == if from.AfterEquals? then p.val else UrlDecode(SerialisePair(p)[..|Encode(p.val)|])
  {
    hide UrlDecode, Encode, Find;
    var s, e := SerialisePair(p), |Encode(p.key)|;
    NoSeparators(p);
    FindAfter(Encode(p.key), EQUALS, Encode(p.val));
    assert s[..e] == Encode(p.key) && s[e + 1..] == Encode(p.val);
    DecodeInvertsEncode(p.key);
    DecodeInvertsEncode(p.val);
  }

  function DecodedPairs(ps: seq<Pair>, from: ValueFrom): (r: seq<Pair>)
    ensures |r| == |ps|
  {
    seq(|ps|, i requires 0 <= i < |ps| => DecodePair(SerialisePair(ps[i]), from))
  }

  lemma {:induction false} ParseSerialised(ps: seq<Pair>, from: ValueFrom)
    requires forall i :: 0 <= i < |ps| ==> ps[i].key != []
    ensures Parse(Serialise(ps), from) == DecodedPairs(ps, from)
    decreases |ps|
  {
    hide DecodePair, SerialisePair, Parse;
    if ps == [] {
      ParseEmpty(from);
    } else if |ps| == 1 {
      ParseLast(ps[0], from);
    } else {
      ParseAmp(ps[0], Serialise(ps[1..]), from);
      ParseSerialised(ps[1..], from);
      assert DecodedPairs(ps, from)[1..] == DecodedPairs(ps[1..], from);
    }
  }

  lemma ParseEmpty(from: ValueFrom)
    ensures Parse([], from) == []
  {
  }

  lemma ParseLast(p: Pair, from: ValueFrom)
    requires p.key != []
    ensures Parse(SerialisePair(p), from) == [DecodePair(SerialisePair(p), from)]
  {
    hide DecodePair, SerialisePair, Find;
    var s := SerialisePair(p);
    NoSeparators(p);
    PairDecoded(p, from);
    FindAfter(s, AMP, []);
    assert s[..|s|] == s;
    ParseUnfolds(s, DecodePair(s, from), from);
    assert Parse([], from) == [];
  }

  lemma ParseAmp(p: Pair, rest: seq<byte>, from: ValueFrom)
    requires p.key != []
    ensures Parse(SerialisePair(p) + ([AMP] + rest), from) == [DecodePair(SerialisePair(p), from)] + Parse(rest, from)
  {
    hide DecodePair, SerialisePair, Find, Parse;
    var s := SerialisePair(p);
    var all := s + ([AMP] + rest);
    NoSeparators(p);
    PairDecoded(p, from);
    FindAfter(s, AMP, rest);
    assert all[..|s|] == s && all[|s| + 1..] == rest;
    ParseUnfolds(all, DecodePair(s, from), from);
  }

  /** Decoding the value after the equals sign gives every list of pairs with non-empty keys back. */
  lemma FormRoundTrip(ps: seq<Pair>)
    requires forall i :: 0 <= i < |ps| ==> ps[i].key != []
    ensures Parse(Serialise(ps), AfterEquals) == ps
  {
    ParseSerialised(ps, AfterEquals);
    forall i | 0 <= i < |ps|
      ensures DecodedPairs(ps, AfterEquals)[i] == ps[i]
    {
      PairDecoded(ps[i], AfterEquals);
    }
  }

  /* ---- the code as written ---------------------------------------------------------------------------- */

  /** Cutting an encoded string short and decoding what is left: encoding the result again needs at
      least as many bytes, and exactly as many only when the cut fell between two encoded bytes. */
  lemma {:induction false} CutShort(x: seq<byte>, c: nat)
    requires c <= |Encode(x)|
    ensures var y := UrlDecode(Encode(x)[..c]);
      && |Encode(y)| >= c && (|Encode(y)| == c ==> y <= x)
      && (NUL !in x ==> NUL !in y)
    decreases |x|
  {
    hide UrlDecode;
    if c == 0 {
      assert Encode(x)[..c] == [];
      DecodeInvertsEncode([]);
    } else {
      var e := EncodeByte(x[0]);
      var rest := Encode(x[1..]);
      if c >= |e| {
        CutShort(x[1..], c - |e|);
        assert Encode(x)[..c] == e + rest[..c - |e|];
        DecodeByte(x[0], rest[..c - |e|]);
        var y := UrlDecode(rest[..c - |e|]);
        EncodeConcat([x[0]], y);
        EncodeOne(x[0]);
        assert NUL !in x ==> NUL !in x[1..];
      } else {
        CutInside(x[0], rest, c);
      }
    }
  }

  lemma EncodeOne(b: byte)
    ensures Encode([b]) == EncodeByte(b)
  {
    assert [b][1..] == [];
    assert EncodeByte(b) + [] == EncodeByte(b);
  }

  /** A cut inside an escape leaves its first characters, which stand for themselves. */
  lemma CutInside(b: byte, rest: seq<byte>, c: nat)
    requires 0 < c < |EncodeByte(b)|
    ensures var y := UrlDecode((EncodeByte(b) + rest)[..c]);
      |Encode(y)| > c && NUL !in y
  {
    var cut := (EncodeByte(b) + rest)[..c];
    EncodeOne(PERCENT);
    if c == 1 {
      assert cut == [PERCENT];
      assert [PERCENT][1..] == [];
      assert UrlDecode([PERCENT]) == [PERCENT];
    } else {
      var h := HexUpper(b / 16);
      assert cut == [PERCENT, h];
      assert [PERCENT, h][1..] == [h] && [h][1..] == [];
      assert UrlDecode([h]) == [h];
      assert UrlDecode([PERCENT, h]) == [PERCENT, h];
      assert [PERCENT, h] == [PERCENT] + [h];
      EncodeConcat([PERCENT], [h]);
      EncodeOne(h);
    }
  }

  /** What the code takes for the value of a pair it serialised. */
  function Shown(p: Pair): seq<byte> {
    UrlDecode(SerialisePair(p)[..|Encode(p.val)|])
  }

  lemma PrefixIsShown(p: Pair)
    requires p.val <= p.key
    ensures Shown(p) == p.val
  {
    var rest := p.key[|p.val|..];
    assert p.key == p.val + rest;
    EncodeConcat(p.val, rest);
    assert SerialisePair(p)[..|Encode(p.val)|] == Encode(p.val);
    DecodeInvertsEncode(p.val);
  }

  /** The value comes out right iff it is a prefix of the key. */
  lemma ShownIsValue(p: Pair)
    ensures Shown(p) == p.val <==> p.val <= p.key
    ensures NUL !in p.key && NUL !in p.val ==> NUL !in Shown(p)
  {
    hide UrlDecode, EncodeByte;
    var n, k := |Encode(p.val)|, Encode(p.key);
    var s := SerialisePair(p);
    if p.val <= p.key {
      PrefixIsShown(p);
    }
    if n <= |k| {
      assert s[..n] == k[..n];
      CutShort(p.key, n);
    } else {
      var m := n - |k| - 1;
      var tail := UrlDecode(Encode(p.val)[..m]);
      assert s[..n] == k + ([EQUALS] + Encode(p.val)[..m]);
      DecodeEncoded(p.key, [EQUALS] + Encode(p.val)[..m]);
      DecodeEquals(Encode(p.val)[..m]);
      assert Shown(p) == p.key + ([EQUALS] + tail);
      CutShort(p.val, m);
      EncodeConcat(p.key, [EQUALS] + tail);
      EncodeConcat([EQUALS], tail);
      EncodeOne(EQUALS);
      EscapedEquals();
      assert |Encode(Shown(p))| > n;
    }
  }

  lemma DecodeEquals(rest: seq<byte>)
    ensures UrlDecode([EQUALS] + rest) == [EQUALS] + UrlDecode(rest)
  {
    assert ([EQUALS] + rest)[1..] == rest;
  }

  lemma EscapedEquals()
    ensures |EncodeByte(EQUALS)| == 3
  {
  }

  /** The list of pairs comes out right iff every value is a prefix of its key. */
  lemma FormAsWritten(ps: seq<Pair>)
    requires forall i :: 0 <= i < |ps| ==> ps[i].key != []
    ensures Parse(Serialise(ps), PairStart) == ps <==> forall i :: 0 <= i < |ps| ==> ps[i].val <= ps[i].key
  {
    hide Parse, Serialise, DecodePair, SerialisePair;
    ParseSerialised(ps, PairStart);
    var ds := DecodedPairs(ps, PairStart);
    forall i | 0 <= i < |ps|
      ensures ds[i] == ps[i] <==> ps[i].val <= ps[i].key
    {
      PairDecoded(ps[i], PairStart);
      ShownIsValue(ps[i]);
    }
    if ds == ps {
      assert forall i :: 0 <= i < |ps| ==> ds[i] == ps[i];
    }
  }

  predicate Plain(ps: seq<Pair>) {
    forall i :: 0 <= i < |ps| ==> ps[i].key != [] && NUL !in ps[i].key && NUL !in ps[i].val
  }

  /** The map, as the code fills it. */
  lemma AsWrittenEntries(ps: seq<Pair>)
    requires Plain(ps)
    ensures var es := Entries(Parse(Serialise(ps), PairStart));
      |es| == |ps| && forall i :: 0 <= i < |ps| ==> es[i].key == ps[i].key && (es[i].val == ps[i].val <==> ps[i].val <= ps[i].key)
  {
    hide Parse, Serialise, DecodePair, SerialisePair;
    ParseSerialised(ps, PairStart);
    forall i | 0 <= i < |ps|
      ensures var e := EntryOf(DecodedPairs(ps, PairStart)[i]); e.key == ps[i].key && (e.val == ps[i].val <==> ps[i].val <= ps[i].key)
    {
      PairDecoded(ps[i], PairStart);
      ShownIsValue(ps[i]);
    }
  }

  lemma PlainEntries(ps: seq<Pair>)
    requires Plain(ps)
    ensures forall i :: 0 <= i < |ps| ==> Entries(ps)[i].key == ps[i].key && Entries(ps)[i].val == ps[i].val
  {
  }

  /** Corrected, the map is the last-wins map of the pairs: its keys are theirs, and each has the
      value of its last pair. */
  lemma FormMap(ps: seq<Pair>)
    requires Plain(ps)
    ensures var m := InsertAll(map[], Entries(Parse(Serialise(ps), AfterEquals)));
      && (forall k :: k in m <==> exists i :: 0 <= i < |ps| && ps[i].key == k)
      && (forall i :: 0 <= i < |ps| && IsLast(Entries(ps), i) ==> ps[i].key in m && m[ps[i].key] == ps[i].val)
  {
    hide Parse, Serialise, InsertAll, EntryOf;
    FormRoundTrip(ps);
    PlainEntries(ps);
    var es := Entries(ps);
    var m := InsertAll(map[], es);
    forall k: CStr
      ensures k in m <==> exists i :: 0 <= i < |ps| && ps[i].key == k
    {
      InsertAllIsLastWins(es, k);
      if exists i :: 0 <= i < |ps| && ps[i].key == k {
        var i :| 0 <= i < |ps| && ps[i].key == k;
        assert es[i].key == k;
      }
      if k in m {
        var i :| 0 <= i < |es| && es[i].key == k;
        assert ps[i].key == k;
      }
    }
    forall i | 0 <= i < |ps| && IsLast(es, i)
      ensures ps[i].key in m && m[ps[i].key] == ps[i].val
    {
      SameValue(es, es, i);
    }
  }

  /** As written, the map is the last-wins map of the pairs iff every value that no later pair
      overrides is a prefix of its key. */
  lemma FormMapAsWritten(ps: seq<Pair>)
    requires Plain(ps)
    ensures Filled(map[], Serialise(ps)) == InsertAll(map[], Entries(ps)) <==>
            forall i :: 0 <= i < |ps| && IsLast(Entries(ps), i) ==> ps[i].val <= ps[i].key
  {
    hide Parse, Serialise, InsertAll, EntryOf;
    var was, es := Entries(ps), Entries(Parse(Serialise(ps), PairStart));
    AsWrittenEntries(ps);
    PlainEntries(ps);
    var intended, actual := InsertAll(map[], was), InsertAll(map[], es);
    if actual == intended {
      forall i | 0 <= i < |ps| && IsLast(was, i)
        ensures ps[i].val <= ps[i].key
      {
        SameValue(was, es, i);
      }
    }
    if forall i :: 0 <= i < |ps| && IsLast(was, i) ==> ps[i].val <= ps[i].key {
      SameMaps(was, es);
    }
  }

  /** Lists with the same keys and the same last values fill the same map. */
  lemma SameMaps(was: seq<Entry>, es: seq<Entry>)
    requires |was| == |es| && (forall j :: 0 <= j < |was| ==> es[j].key == was[j].key)
    requires forall j :: 0 <= j < |was| && IsLast(was, j) ==> es[j].val == was[j].val
    ensures InsertAll(map[], es) == InsertAll(map[], was)
  {
    hide InsertAll, IsLast;
    forall k: CStr
      ensures k in InsertAll(map[], es) <==> k in InsertAll(map[], was)
      ensures k in InsertAll(map[], es) ==> InsertAll(map[], es)[k] == InsertAll(map[], was)[k]
    {
      InsertAllIsLastWins(was, k);
      InsertAllIsLastWins(es, k);
      if k in InsertAll(map[], was) {
        var i :| 0 <= i < |was| && was[i].key == k;
        var j := LastEntry(was, i);
        assert es[j].key == k;
        SameValue(was, es, j);
      }
    }
  }

  /** Both maps hold the value of a last entry under its key. */
  lemma SameValue(was: seq<Entry>, es: seq<Entry>, i: nat)
    requires i < |was| == |es| && (forall j :: 0 <= j < |was| ==> es[j].key == was[j].key) && IsLast(was, i)
    ensures was[i].key in InsertAll(map[], was) && InsertAll(map[], was)[was[i].key] == was[i].val
    ensures was[i].key in InsertAll(map[], es) && InsertAll(map[], es)[was[i].key] == es[i].val
  {
    hide InsertAll;
    InsertAllIsLastWins(was, was[i].key);
    InsertAllIsLastWins(es, was[i].key);
    assert es[i].key == was[i].key;
    assert IsLast(es, i);
  }

  /** `a=b` is read as a=a. */
  lemma AsWrittenExample()
    ensures Parse(Serialise([Pair([97], [98])]), PairStart) == [Pair([97], [97])]
  {
    var p := Pair([97], [98]);
    ParseSerialised([p], PairStart);
    PairDecoded(p, PairStart);
    EncodeOne(97);
    EncodeOne(98);
    assert SerialisePair(p)[..1] == Encode([97]);
    DecodeInvertsEncode([97]);
  }
}
