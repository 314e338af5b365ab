/** What the request parser makes of numerals, bodies of known length and chunked bodies
    (sections 6.2 and 7.1 of RFC 9112). */
module HttpBodies {
  import opened Bytes
  import opened HttpSpec

  /* ---- stepping --------------------------------------------------------------------------------- */

  function Spans(kind: SpanKind, d: seq<byte>): (r: seq<Event>)
    ensures |r| == |d|
  {
    seq(|d|, i requires 0 <= i < |d| => SpanByte(kind, d[i]))
  }

  lemma SpansConcat(kind: SpanKind, a: seq<byte>, b: seq<byte>)
    ensures Spans(kind, a + b) == Spans(kind, a) + Spans(kind, b)
  {
  }

  lemma OneSpan(kind: SpanKind, b: byte)
    ensures Spans(kind, [b]) == [SpanByte(kind, b)]
  {
  }

  lemma FeedNothing(g: Grammar, s: Core)
    ensures Feed(g, s, []) == Settle(s)
  {
  }

  lemma SettledAlready(s: Core)
    requires !NeedsNoByte(s.st)
    ensures Settle(s) == s
  {
  }

  lemma SettleMove(s: Core)
    requires NeedsNoByte(s.st)
    ensures Settle(s) == Settle(Move(s))
  {
  }

  lemma FeedByte(g: Grammar, s: Core, b: byte)
    ensures Feed(g, s, [b]) == Settle(Step(g, Settle(s), b))
  {
    FeedNothing(g, Step(g, Settle(s), b));
  }

  lemma {:induction false} FailedStays(g: Grammar, s: Core, bytes: seq<byte>)
    requires s.st.Failed?
    ensures Feed(g, s, bytes) == s
    decreases |bytes|
  {
    if bytes != [] {
      FailedStays(g, s, bytes[1..]);
    }
  }

  /* ---- numerals --------------------------------------------------------------------------------- */

  predicate AllDigits(ds: seq<byte>) {
    forall i :: 0 <= i < |ds| ==> IsDigit(ds[i])
  }

  predicate AllHex(ds: seq<byte>) {
    forall i :: 0 <= i < |ds| ==> IsHex(ds[i])
  }

  /** The value of a numeral, most significant digit first. */
  function Numeral(base: nat, ds: seq<byte>): nat
    requires AllHex(ds)
  {
    if ds == [] then 0 else Numeral(base, ds[..|ds| - 1]) * base + HexValue(ds[|ds| - 1])
  }

  /** The digits of a chunk size are the hexadecimal digits in either case. */
  lemma HexSpells(b: byte)
    ensures IsHex(b) <==> IsHexDigit(b)
    ensures IsHex(b) ==> forall d :: 0 <= d < 16 ==> (HexValue(b) == d <==> Spells(b, d))
    ensures IsDigit(b) <==> IsHex(b) && HexValue(b) < 10
  {
    if IsHex(b) {
      assert Spells(b, HexValue(b));
    }
  }

  lemma NumeralOfOne(base: nat, b: byte)
    requires IsHex(b)
    ensures Numeral(base, [b]) == HexValue(b)
  {
    assert [b][..0] == [];
    assert Numeral(base, []) == 0;
  }

  /** The guards of mul_add fire exactly when the exact result does not fit, and what they let
      through is never reduced modulo 2^64. */
  lemma MulAddIsExact(n: nat, base: nat, d: nat)
    requires (base == 10 || base == 16) && d < base && n <= UINT64_MAX
    ensures MulAdd(n, base, d) == if n * base + d <= UINT64_MAX then n * base + d else -1
    ensures AfterOverflow(n, base) <= UINT64_MAX
  {
  }

  predicate AwaitsLength(s: Core) {
    && s.length == 0
    && (s.st.Length? || ((s.st.DiscardWs? || s.st.ValueStart?) && s.hs.ContentLength? && !s.flags.contentLength))
  }

  lemma LengthIsZero(s: Core)
    requires AwaitsLength(s)
    ensures s.length == 0
  {
  }

  lemma LengthDigit(g: Grammar, s: Core, b: byte)
    requires AwaitsLength(s) || (s.st.Length? && s.length <= UINT64_MAX)
    requires IsDigit(b)
    ensures var n := s.length * 10 + HexValue(b);
      Feed(g, s, [b]) == if n <= UINT64_MAX then Into(s, ValueSpan, b, Length).(length := n)
                         else Into(s, ValueSpan, b, Failed(HPE_INVALID_CONTENT_LENGTH)).(length := AfterOverflow(s.length, 10))
  {
    FeedByte(g, s, b);
    MulAddIsExact(s.length, 10, b - 48);
    assert Step(g, s, b) == InLength(s, b);
  }

  /** Content-Length: a string of digits of any length is accepted iff its value fits in 64 bits, and
      then `content_length` is that value. */
  lemma {:induction false} LengthDigits(g: Grammar, s: Core, ds: seq<byte>)
    requires AwaitsLength(s) && AllDigits(ds) && ds != []
    ensures AllHex(ds)
    ensures var r := Feed(g, s, ds);
      if Numeral(10, ds) <= UINT64_MAX
      then r == s.(st := Length, length := Numeral(10, ds), log := s.log + Spans(ValueSpan, ds))
      else r.st == Failed(HPE_INVALID_CONTENT_LENGTH)
    decreases |ds|
  {
    hide Feed, Step, Settle, Spans, HexValue, AfterOverflow, AwaitsLength;
    var k := |ds| - 1;
    var before, b := ds[..k], ds[k];
    assert ds == before + [b];
    FeedConcat(g, s, before, [b]);
    SpansConcat(ValueSpan, before, [b]);
    OneSpan(ValueSpan, b);
    LengthIsZero(s);
    if before == [] {
      FeedNothing(g, s);
      LengthDigit(g, s, b);
      assert ds == [b];
      NumeralOfOne(10, b);
    } else {
      LengthDigits(g, s, before);
      if Numeral(10, before) <= UINT64_MAX {
        var t := s.(st := Length, length := Numeral(10, before), log := s.log + Spans(ValueSpan, before));
        LengthDigit(g, t, b);
        assert t.log + [SpanByte(ValueSpan, b)] == s.log + Spans(ValueSpan, ds);
      } else {
        FailedStays(g, Feed(g, s, before), [b]);
      }
    }
  }

  lemma ChunkDigit1(g: Grammar, s: Core, b: byte)
    requires (s.st.ChunkDigit? || s.st.ChunkSize?) && s.length <= UINT64_MAX
    requires IsHex(b)
    ensures var n := s.length * 16 + HexValue(b);
      Feed(g, s, [b]) == if n <= UINT64_MAX then s.(st := ChunkSize, length := n)
                         else Fail(s, HPE_INVALID_CHUNK_SIZE).(length := AfterOverflow(s.length, 16))
  {
    FeedByte(g, s, b);
    MulAddIsExact(s.length, 16, HexValue(b));
    assert Step(g, s, b) == ChunkSizeDigit(s, b);
  }

  /** Chunk size: the same for hexadecimal digits of either case. */
  lemma {:induction false} ChunkDigits(g: Grammar, s: Core, ds: seq<byte>)
    requires s.st.ChunkDigit? && s.length == 0 && AllHex(ds) && ds != []
    ensures var r := Feed(g, s, ds);
      if Numeral(16, ds) <= UINT64_MAX then r == s.(st := ChunkSize, length := Numeral(16, ds))
      else r.st == Failed(HPE_INVALID_CHUNK_SIZE)
    decreases |ds|
  {
    hide Feed, Step;
    var k := |ds| - 1;
    var before, b := ds[..k], ds[k];
    assert ds == before + [b];
    FeedConcat(g, s, before, [b]);
    if before == [] {
      FeedNothing(g, s);
      assert ds == [b];
      NumeralOfOne(16, b);
      ChunkDigit1(g, s, b);
    } else {
      ChunkDigits(g, s, before);
      if Numeral(16, before) <= UINT64_MAX {
        ChunkDigit1(g, s.(st := ChunkSize, length := Numeral(16, before)), b);
      } else {
        FailedStays(g, Feed(g, s, before), [b]);
      }
    }
  }

  /* ---- bodies of known length ------------------------------------------------------------------- */

  predicate InBlock(s: Core) {
    (s.st.BodyStart? || s.st.Body? || s.st.ChunkStart? || s.st.ChunkData?) && s.length > 0
  }

  function Inside(st: St): St {
    if st.BodyStart? || st.Body? then Body else ChunkData
  }

  function Beyond(st: St): St {
    if st.BodyStart? || st.Body? then BodyComplete else ChunkDataCr
  }

  /** Consuming a block: what was delivered and what remains add up to the announced length. */
  lemma {:induction false} BodyBlock(g: Grammar, s: Core, d: seq<byte>)
    requires InBlock(s) && |d| <= s.length
    ensures Feed(g, s, d) ==
            if d == [] then s
            else if |d| < s.length
            then s.(st := Inside(s.st), length := s.length - |d|, log := s.log + Spans(BodySpan, d))
            else Settle(s.(st := Beyond(s.st), length := 0, log := s.log + Spans(BodySpan, d)))
    decreases |d|
  {
    hide Feed, Step, Settle, Spans, Inside, Beyond;
    BlockGoesOn(s.st);
    OneSpan(BodySpan, if d == [] then 0 else d[0]);
    if d == [] {
      FeedNothing(g, s);
      SettledAlready(s);
    } else {
      var b, rest := d[0], d[1..];
      BlockByte(g, s, b);
      assert d == [b] + rest;
      FeedConcat(g, s, [b], rest);
      SpansConcat(BodySpan, [b], rest);
      if rest == [] {
        assert d == [b];
      } else {
        var t := Into(s, BodySpan, b, Inside(s.st)).(length := s.length - 1);
        BodyBlock(g, t, rest);
        assert t.log + Spans(BodySpan, rest) == s.log + Spans(BodySpan, d);
      }
    }
  }

  lemma BlockGoesOn(st: St)
    requires st.BodyStart? || st.Body? || st.ChunkStart? || st.ChunkData?
    ensures (Inside(st).Body? || Inside(st).ChunkData?) && Inside(Inside(st)) == Inside(st) && Beyond(Inside(st)) == Beyond(st)
  {
  }

  lemma BlockByte(g: Grammar, s: Core, b: byte)
    requires InBlock(s)
    ensures Feed(g, s, [b]) ==
            if s.length > 1 then Into(s, BodySpan, b, Inside(s.st)).(length := s.length - 1)
            else Settle(Into(s, BodySpan, b, Beyond(s.st)).(length := 0))
  {
    hide Feed, Settle, Step;
    FeedByte(g, s, b);
    SettledAlready(s);
    BlockStep(g, s, b);
    if s.length > 1 {
      SettledAlready(Into(s, BodySpan, b, Inside(s.st)).(length := s.length - 1));
    }
  }

  lemma BlockStep(g: Grammar, s: Core, b: byte)
    requires InBlock(s)
    ensures Step(g, s, b) ==
            if s.length > 1 then Into(s, BodySpan, b, Inside(s.st)).(length := s.length - 1)
            else Into(s, BodySpan, b, Beyond(s.st)).(length := 0)
  {
    hide InBody;
    assert Step(g, s, b) == InBody(s, b, Inside(s.st), Beyond(s.st));
    OneBodyByte(s, b, Inside(s.st), Beyond(s.st));
  }

  lemma OneBodyByte(s: Core, b: byte, inside: St, beyond: St)
    requires s.length > 0
    ensures InBody(s, b, inside, beyond) ==
            if s.length > 1 then Into(s, BodySpan, b, inside).(length := s.length - 1)
            else Into(s, BodySpan, b, beyond).(length := 0)
  {
  }

  /** Where a message with a body ends: if the headers asked for an upgrade, the parser pauses there. */
  function AtEnd(s: Core): St {
    if s.upgrade then GoUpgrade else AfterMessage
  }

  /** After a body the message is over. */
  lemma BodyEnds(s: Core)
    requires s.st.BodyComplete?
    ensures Settle(s) == Settle(Note(s, MessageComplete).(st := AtEnd(s)))
  {
    hide Settle;
    var t := Note(s, MessageComplete).(st := CheckUpgrade);
    SettleMove(s);
    SettleMove(t);
    assert Move(t) == t.(st := AtEnd(s));
  }

  /** The state right after the headers of a message whose body has a known length. Only CONNECT has no
      body then; a request to upgrade has one. */
  predicate HasKnownLength(s: Core) {
    && s.st.AfterHeaders? && s.flags.contentLength && !s.flags.chunked && !s.flags.transferEncoding && s.length > 0
    && !(s.upgrade && s.connect)
  }

  /** With Content-Length N, whatever the pieces: at every point the delivered bytes and the remaining
      count add up to N, and after exactly N bytes the message is complete. */
  lemma KnownLengthBody(g: Grammar, s: Core, pieces: seq<seq<byte>>)
    requires HasKnownLength(s) && |Flatten(pieces)| <= s.length
    ensures var d, r := Flatten(pieces), FeedAll(g, s, pieces);
      if |d| < s.length
      then r.length + |d| == s.length && r.log == s.log + Spans(BodySpan, d) && (r.st.BodyStart? || r.st.Body?)
      else r == Settle(s.(st := AtEnd(s), length := 0, log := s.log + Spans(BodySpan, d) + [MessageComplete]))
  {
    var d := Flatten(pieces);
    FeedAllIsFeed(g, s, pieces);
    KnownLengthSettles(s);
    var t := s.(st := BodyStart);
    FeedSettled(g, s, d);
    BodyBlock(g, t, d);
    if |d| == s.length {
      BodyEnds(t.(st := BodyComplete, length := 0, log := s.log + Spans(BodySpan, d)));
    }
  }

  lemma KnownLengthSettles(s: Core)
    requires HasKnownLength(s)
    ensures Settle(s) == s.(st := BodyStart)
  {
    assert AfterHeadersComplete(Request, s.flags, false, s.upgrade, s.connect, s.length) == 3;
    assert Move(s) == s.(st := BodyStart);
  }

  /* ---- chunks ----------------------------------------------------------------------------------- */

  /** A chunk as it is sent: its size in hexadecimal, in any spelling, and its data. */
  datatype Chunk = Chunk(size: seq<byte>, data: seq<byte>)

  predicate IsChunk(c: Chunk) {
    && c.size != [] && AllHex(c.size) && Numeral(16, c.size) == |c.data|
    && 0 < |c.data| <= UINT64_MAX
  }

  const CRLF: seq<byte> := [CR, LF]

  function ChunkBytes(c: Chunk): seq<byte> {
    c.size + (CRLF + (c.data + CRLF))
  }

  function ChunkEvents(c: Chunk): seq<Event> {
    [ChunkHeader(|c.data|)] + Spans(BodySpan, c.data) + [ChunkComplete]
  }

  lemma FeedTwo(g: Grammar, s: Core, a: byte, b: byte)
    ensures Feed(g, s, [a, b]) == Settle(Step(g, Settle(Step(g, Settle(s), a)), b))
  {
    hide Feed, Step, Settle;
    FeedByte(g, s, a);
    FeedByte(g, Feed(g, s, [a]), b);
    FeedConcat(g, s, [a], [b]);
    SettleTwice(Step(g, Settle(s), a));
    assert [a] + [b] == [a, b];
  }

  lemma SizeLine(g: Grammar, s: Core)
    requires s.st.ChunkSize?
    ensures Feed(g, s, CRLF) == Settle(s.(st := OnChunkHeader))
  {
    hide Feed, Settle;
    FeedTwo(g, s, CR, LF);
    SettledAlready(s);
    SettledAlready(s.(st := ChunkSizeLf));
    assert Step(g, s, CR) == s.(st := ChunkSizeLf);
  }

  lemma DataEnd(g: Grammar, s: Core)
    requires s.st.ChunkDataCr?
    ensures Feed(g, s, CRLF) == s.(st := ChunkDigit, length := 0, log := s.log + [ChunkComplete])
  {
    hide Feed, Settle;
    FeedTwo(g, s, CR, LF);
    SettledAlready(s);
    SettledAlready(s.(st := ChunkDataLf));
    assert Step(g, s, CR) == s.(st := ChunkDataLf);
    assert Step(g, s.(st := ChunkDataLf), LF) == s.(st := ChunkDone);
    ChunkDoneSettles(s.(st := ChunkDone));
  }

  lemma ChunkDoneSettles(s: Core)
    requires s.st.ChunkDone?
    ensures Settle(s) == Note(s, ChunkComplete).(st := ChunkDigit, length := 0)
  {
    hide Settle;
    SettleMove(s);
    SettleMove(Note(s, ChunkComplete).(st := ChunkClear));
    SettledAlready(Note(s, ChunkComplete).(st := ChunkDigit, length := 0));
  }

  lemma HeaderOfChunk(s: Core)
    requires s.st.OnChunkHeader?
    ensures Settle(s) == if s.length == 0 then Note(s, ChunkHeader(0)).(st := FieldStart, flags := s.flags.(trailing := true))
                         else Note(s, ChunkHeader(s.length)).(st := ChunkStart)
  {
    hide Settle;
    var t := Note(s, ChunkHeader(s.length)).(st := ChunkKind);
    SettleMove(s);
    SettleMove(t);
    SettledAlready(Move(t));
  }

  /** One chunk fires its header, its bytes and its completion, and leaves the machine where it was. */
  lemma ChunkParses(g: Grammar, s: Core, c: Chunk)
    requires s.st.ChunkDigit? && s.length == 0 && IsChunk(c)
    ensures Feed(g, s, ChunkBytes(c)) == s.(log := s.log + ChunkEvents(c))
  {
    hide Feed, Step, Settle, Move, Numeral;
    var n := |c.data|;
    FeedConcat(g, s, c.size, CRLF + (c.data + CRLF));
    ChunkDigits(g, s, c.size);
    var t := s.(st := ChunkSize, length := n);
    FeedConcat(g, t, CRLF, c.data + CRLF);
    SizeLine(g, t);
    HeaderOfChunk(t.(st := OnChunkHeader));
    var u := Note(t, ChunkHeader(n)).(st := ChunkStart);
    FeedConcat(g, u, c.data, CRLF);
    BodyBlock(g, u, c.data);
    var v := u.(st := ChunkDataCr, length := 0, log := u.log + Spans(BodySpan, c.data));
    SettledAlready(v);
    DataEnd(g, v);
    assert v.log + [ChunkComplete] == s.log + ChunkEvents(c);
  }

  function AllChunkBytes(cs: seq<Chunk>): seq<byte> {
    if cs == [] then [] else ChunkBytes(cs[0]) + AllChunkBytes(cs[1..])
  }

  function AllChunkEvents(cs: seq<Chunk>): seq<Event> {
    if cs == [] then [] else ChunkEvents(cs[0]) + AllChunkEvents(cs[1..])
  }

  lemma {:induction false} ChunksParse(g: Grammar, s: Core, cs: seq<Chunk>)
    requires s.st.ChunkDigit? && s.length == 0
    requires forall i :: 0 <= i < |cs| ==> IsChunk(cs[i])
    ensures Feed(g, s, AllChunkBytes(cs)) == s.(log := s.log + AllChunkEvents(cs))
    decreases |cs|
  {
    hide Feed, Step, ChunkBytes, ChunkEvents, IsChunk;
    if cs == [] {
      FeedNothing(g, s);
      SettledAlready(s);
      assert s.log + [] == s.log;
    } else {
      ChunkParses(g, s, cs[0]);
      var t := s.(log := s.log + ChunkEvents(cs[0]));
      ChunksParse(g, t, cs[1..]);
      FeedConcat(g, s, ChunkBytes(cs[0]), AllChunkBytes(cs[1..]));
      assert t.log + AllChunkEvents(cs[1..]) == s.log + AllChunkEvents(cs);
    }
  }

  predicate IsZero(ds: seq<byte>) {
    ds != [] && AllHex(ds) && Numeral(16, ds) == 0
  }

  const LAST_EVENTS: seq<Event> := [ChunkHeader(0), ChunkComplete]

  lemma EmptyTrailer(g: Grammar, s: Core)
    requires s.st.FieldStart? && s.flags.trailing
    ensures Feed(g, s, CRLF) == Settle(Note(s, ChunkComplete).(st := BodyComplete))
  {
    hide Feed, Settle;
    FeedTwo(g, s, CR, LF);
    SettledAlready(s);
    SettledAlready(s.(st := HeadersLf));
    assert Step(g, s, CR) == s.(st := HeadersLf);
    assert Step(g, s.(st := HeadersLf), LF) == s.(st := TrailersDone);
    SettleMove(s.(st := TrailersDone));
  }

  /** The last chunk without trailers. */
  lemma LastChunkParses(g: Grammar, s: Core, zeros: seq<byte>)
    requires s.st.ChunkDigit? && s.length == 0 && IsZero(zeros)
    ensures Feed(g, s, zeros + (CRLF + CRLF)) ==
            Settle(s.(st := AtEnd(s), flags := s.flags.(trailing := true), log := s.log + LAST_EVENTS + [MessageComplete]))
  {
    hide Feed, Step, Settle, Move, Numeral;
    FeedConcat(g, s, zeros, CRLF + CRLF);
    ChunkDigits(g, s, zeros);
    var t := s.(st := ChunkSize, length := 0);
    FeedConcat(g, t, CRLF, CRLF);
    SizeLine(g, t);
    HeaderOfChunk(t.(st := OnChunkHeader));
    var u := Note(t, ChunkHeader(0)).(st := FieldStart, flags := s.flags.(trailing := true));
    EmptyTrailer(g, u);
    BodyEnds(Note(u, ChunkComplete).(st := BodyComplete));
    assert u.log + [ChunkComplete] + [MessageComplete] == s.log + LAST_EVENTS + [MessageComplete];
  }

  /** The state right after the headers of a chunked message. */
  predicate HasChunks(s: Core) {
    s.st.AfterHeaders? && s.flags.chunked && !(s.upgrade && s.connect)
  }

  /** Chunked transfer: any chunks in any spelling of their sizes, cut into any pieces, fire exactly
      their own events, then those of the last chunk, and complete the message once. */
  lemma ChunkedBody(g: Grammar, s: Core, cs: seq<Chunk>, zeros: seq<byte>, pieces: seq<seq<byte>>)
    requires HasChunks(s) && IsZero(zeros)
    requires forall i :: 0 <= i < |cs| ==> IsChunk(cs[i])
    requires Flatten(pieces) == AllChunkBytes(cs) + (zeros + (CRLF + CRLF))
    ensures FeedAll(g, s, pieces) ==
            Settle(s.(st := AtEnd(s), length := 0, flags := s.flags.(trailing := true),
                      log := s.log + AllChunkEvents(cs) + LAST_EVENTS + [MessageComplete]))
  {
    hide Feed, FeedAll, Step, IsChunk, AllChunkBytes, AllChunkEvents, Numeral;
    FeedAllIsFeed(g, s, pieces);
    FeedSettled(g, s, Flatten(pieces));
    ChunksSettle(s);
    var t := s.(st := ChunkDigit, length := 0);
    FeedConcat(g, t, AllChunkBytes(cs), zeros + (CRLF + CRLF));
    ChunksParse(g, t, cs);
    LastChunkParses(g, t.(log := s.log + AllChunkEvents(cs)), zeros);
  }

  lemma ChunksSettle(s: Core)
    requires HasChunks(s)
    ensures Settle(s) == s.(st := ChunkDigit, length := 0)
  {
    hide Settle;
    assert AfterHeadersComplete(Request, s.flags, false, s.upgrade, s.connect, s.length) == 2;
    SettleMove(s);
    SettleMove(s.(st := ChunkClear));
    SettledAlready(s.(st := ChunkDigit, length := 0));
  }

  /* ---- the encoder of section 7.1 --------------------------------------------------------------- */

  function HexChar(d: nat): (b: byte)
    requires d < 16
    ensures IsHex(b) && HexValue(b) == d
  {
    if d < 10 then 48 + d else 87 + d
  }

  function HexDigits(n: nat): seq<byte> {
    if n < 16 then [HexChar(n)] else HexDigits(n / 16) + [HexChar(n % 16)]
  }

  lemma {:induction false} HexDigitsSpell(n: nat)
    ensures HexDigits(n) != [] && AllHex(HexDigits(n)) && Numeral(16, HexDigits(n)) == n
  {
    if n < 16 {
      assert HexDigits(n) == [HexChar(n)];
      assert [HexChar(n)][..0] == [];
      assert Numeral(16, []) == 0;
    } else {
      HexDigitsSpell(n / 16);
      var ds := HexDigits(n);
      assert ds[..|ds| - 1] == HexDigits(n / 16);
    }
  }

  function ChunksOf(datas: seq<seq<byte>>): (cs: seq<Chunk>)
    ensures |cs| == |datas|
  {
    seq(|datas|, i requires 0 <= i < |datas| => Chunk(HexDigits(|datas[i]|), datas[i]))
  }

  function EncodeChunked(datas: seq<seq<byte>>): seq<byte> {
    AllChunkBytes(ChunksOf(datas)) + (HexDigits(0) + (CRLF + CRLF))
  }

  /** The bytes that spans of one kind delivered. */
  function Delivered(kind: SpanKind, log: seq<Event>): seq<byte> {
    if log == [] then []
    else (if log[0].SpanByte? && log[0].kind == kind then [log[0].b] else []) + Delivered(kind, log[1..])
  }

  lemma {:induction false} DeliveredConcat(kind: SpanKind, a: seq<Event>, b: seq<Event>)
    ensures Delivered(kind, a + b) == Delivered(kind, a) + Delivered(kind, b)
    decreases |a|
  {
    if a == [] {
      assert a + b == b;
    } else {
      assert (a + b)[1..] == a[1..] + b;
      DeliveredConcat(kind, a[1..], b);
    }
  }

  lemma {:induction false} DeliveredSpans(kind: SpanKind, d: seq<byte>)
    ensures Delivered(kind, Spans(kind, d)) == d
    decreases |d|
  {
    if d != [] {
      assert Spans(kind, d)[1..] == Spans(kind, d[1..]);
      DeliveredSpans(kind, d[1..]);
    }
  }

  /** The sizes that chunk headers announced. */
  function Sizes(log: seq<Event>): seq<nat> {
    if log == [] then [] else (if log[0].ChunkHeader? then [log[0].size] else []) + Sizes(log[1..])
  }

  function Lengths(datas: seq<seq<byte>>): (r: seq<nat>)
    ensures |r| == |datas|
  {
    seq(|datas|, i requires 0 <= i < |datas| => |datas[i]|)
  }

  lemma {:induction false} SizesConcat(a: seq<Event>, b: seq<Event>)
    ensures Sizes(a + b) == Sizes(a) + Sizes(b)
    decreases |a|
  {
    if a == [] {
      assert a + b == b;
    } else {
      var first := if a[0].ChunkHeader? then [a[0].size] else [];
      assert (a + b)[0] == a[0] && (a + b)[1..] == a[1..] + b;
      SizesConcat(a[1..], b);
      assert first + (Sizes(a[1..]) + Sizes(b)) == (first + Sizes(a[1..])) + Sizes(b);
    }
  }

  lemma {:induction false} SizesOfSpans(kind: SpanKind, d: seq<byte>)
    ensures Sizes(Spans(kind, d)) == []
    decreases |d|
  {
    if d != [] {
      assert Spans(kind, d)[1..] == Spans(kind, d[1..]);
      SizesOfSpans(kind, d[1..]);
    }
  }

  lemma SizesOfNothing()
    ensures Sizes([]) == []
  {
  }

  lemma SizesOfOne(e: Event)
    ensures Sizes([e]) == if e.ChunkHeader? then [e.size] else []
  {
    assert [e][1..] == [];
  }

  /** How often an event fired. */
  function Fired(e: Event, log: seq<Event>): nat {
    multiset(log)[e]
  }

  lemma DeliveredChunk(c: Chunk)
    ensures Delivered(BodySpan, ChunkEvents(c)) == c.data
    ensures Sizes(ChunkEvents(c)) == [|c.data|]
    ensures Fired(ChunkComplete, ChunkEvents(c)) == 1 && Fired(MessageComplete, ChunkEvents(c)) == 0
  {
    hide Delivered, Sizes;
    var spans := Spans(BodySpan, c.data);
    DeliveredConcat(BodySpan, [ChunkHeader(|c.data|)] + spans, [ChunkComplete]);
    DeliveredConcat(BodySpan, [ChunkHeader(|c.data|)], spans);
    DeliveredSpans(BodySpan, c.data);
    DeliveredNothing(ChunkHeader(|c.data|));
    DeliveredNothing(ChunkComplete);
    SizesConcat([ChunkHeader(|c.data|)] + spans, [ChunkComplete]);
    SizesConcat([ChunkHeader(|c.data|)], spans);
    SizesOfSpans(BodySpan, c.data);
    SizesOfOne(ChunkHeader(|c.data|));
    SizesOfOne(ChunkComplete);
    assert multiset(spans)[ChunkComplete] == 0 && multiset(spans)[MessageComplete] == 0;
  }

  lemma DeliveredOfNothing()
    ensures Delivered(BodySpan, []) == []
  {
  }

  lemma DeliveredNothing(e: Event)
    requires !e.SpanByte?
    ensures Delivered(BodySpan, [e]) == []
  {
    assert [e][1..] == [];
  }

  lemma {:induction false} DeliveredChunks(cs: seq<Chunk>)
    ensures Delivered(BodySpan, AllChunkEvents(cs)) == Flatten(DataOf(cs))
    ensures Sizes(AllChunkEvents(cs)) == Lengths(DataOf(cs))
    ensures Fired(ChunkComplete, AllChunkEvents(cs)) == |cs| && Fired(MessageComplete, AllChunkEvents(cs)) == 0
    decreases |cs|
  {
    hide Delivered, Sizes, ChunkEvents;
    if cs == [] {
      DeliveredOfNothing();
      SizesOfNothing();
    } else {
      DeliveredChunk(cs[0]);
      DeliveredChunks(cs[1..]);
      DeliveredConcat(BodySpan, ChunkEvents(cs[0]), AllChunkEvents(cs[1..]));
      SizesConcat(ChunkEvents(cs[0]), AllChunkEvents(cs[1..]));
      assert DataOf(cs)[1..] == DataOf(cs[1..]);
      assert Lengths(DataOf(cs)) == [|cs[0].data|] + Lengths(DataOf(cs[1..]));
    }
  }

  function DataOf(cs: seq<Chunk>): (r: seq<seq<byte>>)
    ensures |r| == |cs|
  {
    seq(|cs|, i requires 0 <= i < |cs| => cs[i].data)
  }

  /** The state in which a message has ended. */
  predicate IsOver(upgrade: bool, st: St) {
    if upgrade then st.Upgraded? else st.Start? || st.Closed?
  }

  lemma MessageOver(s: Core)
    requires s.st == AtEnd(s)
    ensures Settle(s).log == s.log && IsOver(s.upgrade, Settle(s).st)
  {
    hide ShouldKeepAlive, Settle;
    SettleMove(s);
    SettledAlready(Move(s));
  }

  lemma FinalEvents()
    ensures Delivered(BodySpan, LAST_EVENTS + [MessageComplete]) == [] && Sizes(LAST_EVENTS + [MessageComplete]) == [0]
    ensures Fired(ChunkComplete, LAST_EVENTS + [MessageComplete]) == 1
    ensures Fired(MessageComplete, LAST_EVENTS + [MessageComplete]) == 1
  {
    hide Delivered, Sizes;
    assert LAST_EVENTS == [ChunkHeader(0)] + [ChunkComplete];
    DeliveredConcat(BodySpan, LAST_EVENTS, [MessageComplete]);
    DeliveredConcat(BodySpan, [ChunkHeader(0)], [ChunkComplete]);
    DeliveredNothing(ChunkHeader(0));
    DeliveredNothing(ChunkComplete);
    DeliveredNothing(MessageComplete);
    SizesConcat(LAST_EVENTS, [MessageComplete]);
    SizesConcat([ChunkHeader(0)], [ChunkComplete]);
    SizesOfOne(ChunkHeader(0));
    SizesOfOne(ChunkComplete);
    SizesOfOne(MessageComplete);
  }

  lemma ChunksOfAreChunks(datas: seq<seq<byte>>)
    requires forall i :: 0 <= i < |datas| ==> 0 < |datas[i]| <= UINT64_MAX
    ensures forall i :: 0 <= i < |datas| ==> IsChunk(ChunksOf(datas)[i])
    ensures DataOf(ChunksOf(datas)) == datas
  {
    forall i | 0 <= i < |datas|
      ensures IsChunk(ChunksOf(datas)[i])
    {
      HexDigitsSpell(|datas[i]|);
    }
  }

  /** Chunked round trip: for any list of non-empty chunks, encoded and delivered in any pieces, the
      body spans concatenate to the data, a chunk header fires with each size and once with zero, a
      chunk completes once more than there are chunks, and the message completes exactly once. */
  lemma ChunkedRoundTrip(g: Grammar, s: Core, datas: seq<seq<byte>>, pieces: seq<seq<byte>>)
    requires HasChunks(s)
    requires forall i :: 0 <= i < |datas| ==> 0 < |datas[i]| <= UINT64_MAX
    requires Flatten(pieces) == EncodeChunked(datas)
    ensures var r := FeedAll(g, s, pieces);
      && Delivered(BodySpan, r.log) == Delivered(BodySpan, s.log) + Flatten(datas)
      && Sizes(r.log) == Sizes(s.log) + (Lengths(datas) + [0])
      && Fired(ChunkComplete, r.log) == Fired(ChunkComplete, s.log) + |datas| + 1
      && Fired(MessageComplete, r.log) == Fired(MessageComplete, s.log) + 1
      && IsOver(s.upgrade, r.st)
  {
    hide FeedAll, Feed, Delivered, Sizes, AllChunkEvents, AllChunkBytes, ChunksOf;
    var cs := ChunksOf(datas);
    ChunksOfAreChunks(datas);
    HexDigitsSpell(0);
    ChunkedBody(g, s, cs, HexDigits(0), pieces);
    var fin := LAST_EVENTS + [MessageComplete];
    var t := s.(st := AtEnd(s), length := 0, flags := s.flags.(trailing := true),
                log := s.log + AllChunkEvents(cs) + LAST_EVENTS + [MessageComplete]);
    MessageOver(t);
    assert t.log == s.log + (AllChunkEvents(cs) + fin);
    DeliveredConcat(BodySpan, s.log, AllChunkEvents(cs) + fin);
    DeliveredConcat(BodySpan, AllChunkEvents(cs), fin);
    SizesConcat(s.log, AllChunkEvents(cs) + fin);
    SizesConcat(AllChunkEvents(cs), fin);
    DeliveredChunks(cs);
    FinalEvents();
  }
}
