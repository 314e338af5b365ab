/** The WebSocket frame codec: build_frame and the frame parser at the head of
    laure_ws_on_data (sections 5.2 and 5.3 of RFC 6455). */
module WsFrame {
  import opened Bytes
  import opened Triangular

  const MAX_FRAME := 16 * 1024 * 1024
  const UINT64_RANGE := 0x1_0000_0000_0000_0000

  type opcode = o: int | 0 <= o < 16

  const OP_CONT: opcode := 0
  const OP_TEXT: opcode := 1
  const OP_BINARY: opcode := 2
  const OP_CLOSE: opcode := 8
  const OP_PING: opcode := 9
  const OP_PONG: opcode := 10

  datatype Frame = Frame(fin: bool, op: opcode, payload: seq<byte>)

  /* ---- bytes of a number --------------------------------------------------------------- */

  function Pow256(k: nat): (r: nat)
    ensures r >= 1
  {
    if k == 0 then 1 else 256 * Pow256(k - 1)
  }

  /** `n >> (8 * j)` */
  function Shifted(n: nat, j: nat): nat
    decreases j, n
  {
    if j == 0 then n else Shifted(n / 256, j - 1)
  }

  /** k bytes of n in network order, and low byte first. */
  function BigEndian(n: nat, k: nat): (s: seq<byte>)
    ensures |s| == k
  {
    if k == 0 then [] else BigEndian(n / 256, k - 1) + [n % 256]
  }

  function LittleEndian(n: nat, k: nat): (s: seq<byte>)
    ensures |s| == k
  {
    if k == 0 then [] else [n % 256] + LittleEndian(n / 256, k - 1)
  }

  /** The value read by `plen = (plen << 8) | byte`, first byte first. */
  function Value(s: seq<byte>): nat {
    if s == [] then 0 else 256 * Value(s[..|s| - 1]) + s[|s| - 1]
  }

  lemma {:induction false} BigEndianValue(n: nat, k: nat)
    requires n < Pow256(k)
    ensures Value(BigEndian(n, k)) == n
  {
    if k > 0 {
      BigEndianValue(n / 256, k - 1);
      assert BigEndian(n, k)[..k - 1] == BigEndian(n / 256, k - 1);
    }
  }

  lemma {:induction false} ValueBound(s: seq<byte>)
    ensures Value(s) < Pow256(|s|)
  {
    if s != [] {
      ValueBound(s[..|s| - 1]);
    }
  }

  lemma {:induction false} ValueConcat(a: seq<byte>, b: seq<byte>)
    ensures Value(a + b) == Value(a) * Pow256(|b|) + Value(b)
  {
    if b == [] {
      assert a + b == a;
    } else {
      var c := b[..|b| - 1];
      ValueConcat(a, c);
      assert (a + b)[..|a + b| - 1] == a + c;
      assert 256 * (Value(a) * Pow256(|c|)) == Value(a) * Pow256(|b|);
    }
  }

  lemma {:induction false} ValueZero(s: seq<byte>)
    requires Value(s) == 0
    ensures forall i :: 0 <= i < |s| ==> s[i] == 0
  {
    if s != [] {
      ValueZero(s[..|s| - 1]);
      assert forall i :: 0 <= i < |s| - 1 ==> s[i] == s[..|s| - 1][i];
    }
  }

  lemma {:induction false} LittleEndianSplit(n: nat, j: nat, k: nat)
    ensures LittleEndian(n, j + k) == LittleEndian(n, j) + LittleEndian(Shifted(n, j), k)
  {
    if j > 0 {
      LittleEndianSplit(n / 256, j - 1, k);
      assert LittleEndian(n, j + k) == [n % 256] + LittleEndian(n / 256, j - 1 + k);
    } else {
      assert LittleEndian(n, 0) == [];
    }
  }

  lemma {:induction false} LittleEndianZero(n: nat, k: nat)
    requires forall i :: 0 <= i < k ==> LittleEndian(n, k)[i] == 0
    ensures n == Pow256(k) * Shifted(n, k)
  {
    if k > 0 {
      assert LittleEndian(n, k)[0] == n % 256;
      var tail := LittleEndian(n / 256, k - 1);
      forall i | 0 <= i < k - 1
        ensures tail[i] == 0
      {
        assert LittleEndian(n, k)[i + 1] == tail[i];
      }
      LittleEndianZero(n / 256, k - 1);
      var p, q := Pow256(k - 1), Shifted(n, k);
      assert n / 256 == p * q;
      assert n == 256 * (p * q) == 256 * p * q;
    }
  }

  /** A number of at least 2^16 written low byte first in eight bytes is never read back, high
      byte first, as itself: not within the decoder's frame limit. Below 2^32 it is read back as a
      number above the limit. */
  lemma ReversedLengthDiffers(n: nat)
    requires 65536 <= n < UINT64_RANGE
    ensures Value(LittleEndian(n, 8)) > MAX_FRAME || Value(LittleEndian(n, 8)) != n
    ensures n < 0x1_0000_0000 ==> Value(LittleEndian(n, 8)) > MAX_FRAME
  {
    var a, b := LittleEndian(n, 4), LittleEndian(Shifted(n, 4), 4);
    LittleEndianSplit(n, 4, 4);
    ValueConcat(a, b);
    ValueBound(b);
    assert Pow256(4) == 0x1_0000_0000;
    if Value(a) == 0 {
      ValueZero(a);
      LittleEndianZero(n, 4);
      assert n >= Pow256(4);
    } else {
      assert Value(a) * Pow256(4) >= Pow256(4);
    }
  }

  /* ---- masking ------------------------------------------------------------------------- */

  /** Bitwise exclusive or of w-bit numbers. */
  function XorBits(a: nat, b: nat, w: nat): (r: nat)
    ensures r < Pow2(w)
    decreases w, a
  {
    if w == 0 then 0 else 2 * XorBits(a / 2, b / 2, w - 1) + if a % 2 != b % 2 then 1 else 0
  }

  function Xor(a: byte, b: byte): byte {
    assert Pow2(8) == 256;
    XorBits(a, b, 8)
  }

  lemma {:induction false} XorBitsTwice(a: nat, b: nat, w: nat)
    requires a < Pow2(w)
    ensures XorBits(XorBits(a, b, w), b, w) == a
    decreases w
  {
    if w > 0 {
      XorBitsTwice(a / 2, b / 2, w - 1);
    }
  }

  type MaskKey = k: seq<byte> | |k| == 4 witness [0, 0, 0, 0]

  /** `payload[i] ^= mk[i & 3]` */
  function Masked(payload: seq<byte>, key: MaskKey): (r: seq<byte>)
    ensures |r| == |payload|
  {
    seq(|payload|, i requires 0 <= i < |payload| => Xor(payload[i], key[i % 4]))
  }

  /** Masking is its own inverse (section 5.3 of RFC 6455). */
  lemma MaskTwice(payload: seq<byte>, key: MaskKey)
    ensures Masked(Masked(payload, key), key) == payload
  {
    forall i | 0 <= i < |payload|
      ensures Masked(Masked(payload, key), key)[i] == payload[i]
    {
      assert Pow2(8) == 256;
      XorBitsTwice(payload[i], key[i % 4], 8);
    }
  }

  /** Bit k of a number. */
  function Bit(n: nat, k: nat): nat
    decreases k
  {
    if k == 0 then n % 2 else Bit(n / 2, k - 1)
  }

  lemma {:induction false} XorBitsAt(a: nat, b: nat, w: nat, k: nat)
    requires k < w
    ensures Bit(XorBits(a, b, w), k) == 1 <==> Bit(a, k) != Bit(b, k)
    decreases w
  {
    if k > 0 {
      XorBitsAt(a / 2, b / 2, w - 1, k - 1);
    }
  }

  /** Each payload bit is flipped exactly by the same bit of the key byte whose turn it is. */
  lemma MaskedBits(payload: seq<byte>, key: MaskKey, i: nat, k: nat)
    requires i < |payload| && k < 8
    ensures Bit(Masked(payload, key)[i], k) == 1 <==> Bit(payload[i], k) != Bit(key[i % 4], k)
  {
    XorBitsAt(payload[i], key[i % 4], 8, k);
  }

  /* ---- encoding ------------------------------------------------------------------------ */

  /** The order in which the eight bytes of a long length go out. */
  datatype LengthOrder = Network | LowByteFirst

  /** The length field and the mask bit: the bytes of a frame header after the first. */
  function LengthField(n: nat, masked: bool, order: LengthOrder): (s: seq<byte>)
    requires n < UINT64_RANGE
    ensures |s| == if n < 126 then 1 else if n < 65536 then 3 else 9
  {
    var m := if masked then 128 else 0;
    if n < 126 then [m + n]
    else if n < 65536 then [m + 126] + BigEndian(n, 2)
    else [m + 127] + if order.Network? then BigEndian(n, 8) else LittleEndian(n, 8)
  }

  function FirstByte(fin: bool, op: opcode): byte {
    (if fin then 128 else 0) + op
  }

  /** The frame build_frame writes (LowByteFirst), and the frame section 5.2 of RFC 6455 asks
      for (Network). */
  function Unmasked(f: Frame, order: LengthOrder): seq<byte>
    requires |f.payload| < UINT64_RANGE
  {
    [FirstByte(f.fin, f.op)] + LengthField(|f.payload|, false, order) + f.payload
  }

  /** The masked frame a client sends. */
  function MaskedFrame(f: Frame, key: MaskKey, order: LengthOrder): seq<byte>
    requires |f.payload| < UINT64_RANGE
  {
    [FirstByte(f.fin, f.op)] + LengthField(|f.payload|, true, order) + key + Masked(f.payload, key)
  }

  /** build_frame: fills a fresh buffer. */
  method BuildFrame(data: seq<byte>, op: opcode, fin: bool) returns (frame: array<byte>)
    requires |data| < UINT64_RANGE
    ensures fresh(frame)
    ensures frame[..] == Unmasked(Frame(fin, op, data), LowByteFirst)
  {
    var len := |data|;
    var hlen := if len < 126 then 2 else if len < 65536 then 4 else 10;
    frame := new byte[len + hlen];
    frame[0] := (if fin then 128 else 0) + op;
    if len < 126 {
      frame[1] := len;
    } else if len < 65536 {
      frame[1] := 126;
      frame[2], frame[3] := len / 256, len % 256;
      TwoBytes(len);
    } else {
      frame[1] := 127;
      WriteLength(frame, len);
    }
    ghost var head := frame[..hlen];
    assert head == [FirstByte(fin, op)] + LengthField(len, false, LowByteFirst);
    CopyInto(frame, hlen, data);
    assert frame[..] == frame[..hlen] + frame[hlen..];
  }

  lemma TwoBytes(n: nat)
    requires n < 65536
    ensures BigEndian(n, 2) == [n / 256, n % 256]
  {
    assert BigEndian(n, 2) == BigEndian(n / 256, 1) + [n % 256];
    assert BigEndian(n / 256, 1) == BigEndian(n / 256 / 256, 0) + [n / 256 % 256];
  }

  /** `memcpy(frame + at, data, len)` up to the end of the frame. */
  method CopyInto(frame: array<byte>, at: nat, data: seq<byte>)
    requires frame.Length == at + |data|
    modifies frame
    ensures frame[..at] == old(frame[..at]) && frame[at..] == data
  {
    for i := 0 to |data|
      invariant frame[..at] == old(frame[..at])
      invariant frame[at..at + i] == data[..i]
    {
      frame[at + i] := data[i];
    }
  }

  /** The loop that writes `(len >> (i * 8)) & 0xFF` at offset 2 + i, for i from 7 down to 0. */
  method WriteLength(frame: array<byte>, len: nat)
    requires frame.Length >= 10
    modifies frame
    ensures frame[2..10] == LittleEndian(len, 8)
    ensures forall i :: 0 <= i < frame.Length && !(2 <= i < 10) ==> frame[i] == old(frame[i])
  {
    for i := 8 downto 0
      invariant forall j :: i <= j < 8 ==> frame[2 + j] == Shifted(len, j) % 256
      invariant forall j :: 0 <= j < frame.Length && !(2 <= j < 10) ==> frame[j] == old(frame[j])
    {
      frame[2 + i] := Shifted(len, i) % 256;
    }
    forall j | 0 <= j < 8
      ensures frame[2..10][j] == LittleEndian(len, 8)[j]
    {
      LittleEndianAt(len, 8, j);
    }
  }

  lemma {:induction false} LittleEndianAt(n: nat, k: nat, j: nat)
    requires j < k
    ensures LittleEndian(n, k)[j] == Shifted(n, j) % 256
  {
    if j > 0 {
      LittleEndianAt(n / 256, k - 1, j - 1);
    }
  }

  /* ---- decoding ------------------------------------------------------------------------ */

  /** What the decoder makes of the buffered bytes: it waits, refuses the frame, or takes a frame
      that occupies the first `total` bytes. */
  datatype Parsed = NeedMore | TooLarge | Got(frame: Frame, total: nat)

  datatype Header = Short | Header(plen: nat, base: nat, masked: bool)

  /** The header without the mask key: `base` bytes long. */
  function ParseHeader(buf: seq<byte>): (h: Header)
    ensures h.Header? ==> h.base <= |buf| && h.base in {2, 4, 10}
  {
    if |buf| < 2 then Short
    else
      var short, masked := buf[1] % 128, buf[1] >= 128;
      if short == 126 then
        if |buf| < 4 then Short else Header(Value(buf[2..4]), 4, masked)
      else if short == 127 then
        if |buf| < 10 then Short else Header(Value(buf[2..10]), 10, masked)
      else Header(short, 2, masked)
  }

  function Parse(buf: seq<byte>): (r: Parsed)
    ensures r.Got? ==> 2 <= r.total <= |buf|
  {
    match ParseHeader(buf)
    case Short => NeedMore
    case Header(plen, base, masked) =>
      var hlen := if masked then base + 4 else base;
      if plen > MAX_FRAME then TooLarge
      else if |buf| < hlen + plen then NeedMore
      else
        Got(Frame(buf[0] >= 128, buf[0] % 16, PayloadAt(buf, base, masked, plen)), hlen + plen)
  }

  lemma HeaderIsStable(buf: seq<byte>, more: seq<byte>)
    requires !ParseHeader(buf).Short?
    ensures ParseHeader(buf + more) == ParseHeader(buf)
  {
    var all := buf + more;
    assert |buf| >= 4 ==> all[2..4] == buf[2..4];
    assert |buf| >= 10 ==> all[2..10] == buf[2..10];
  }

  /** The payload of a frame whose header ends at `base`, before the mask key. */
  function PayloadAt(buf: seq<byte>, base: nat, masked: bool, plen: nat): seq<byte>
    requires (if masked then base + 4 else base) + plen <= |buf|
  {
    if masked then Masked(buf[base + 4..base + 4 + plen], buf[base..base + 4]) else buf[base..base + plen]
  }

  lemma PayloadIsStable(buf: seq<byte>, more: seq<byte>, base: nat, masked: bool, plen: nat)
    requires (if masked then base + 4 else base) + plen <= |buf|
    ensures PayloadAt(buf + more, base, masked, plen) == PayloadAt(buf, base, masked, plen)
  {
    var all := buf + more;
    if masked {
      assert all[base..base + 4] == buf[base..base + 4];
      assert all[base + 4..base + 4 + plen] == buf[base + 4..base + 4 + plen];
    } else {
      assert all[base..base + plen] == buf[base..base + plen];
    }
  }

  /** More bytes never change a verdict already reached. */
  lemma ParseIsStable(buf: seq<byte>, more: seq<byte>)
    requires !Parse(buf).NeedMore?
    ensures Parse(buf + more) == Parse(buf)
  {
    HeaderIsStable(buf, more);
    var Header(plen, base, masked) := ParseHeader(buf);
    if plen <= MAX_FRAME {
      PayloadIsStable(buf, more, base, masked, plen);
    }
  }

  /* ---- round trips --------------------------------------------------------------------- */

  /** The header of a frame that starts with a length field in the given order. */
  lemma LengthFieldParses(first: byte, n: nat, masked: bool, order: LengthOrder, rest: seq<byte>)
    requires n < UINT64_RANGE
    ensures ParseHeader([first] + LengthField(n, masked, order) + rest)
         == Header(if n < 65536 || order.Network? then n else Value(LittleEndian(n, 8)),
                   1 + |LengthField(n, masked, order)|, masked)
  {
    var buf := [first] + LengthField(n, masked, order) + rest;
    assert Pow256(2) == 65536 && Pow256(8) == UINT64_RANGE;
    if n >= 65536 {
      assert buf[2..10] == if order.Network? then BigEndian(n, 8) else LittleEndian(n, 8);
      BigEndianValue(n, 8);
    } else if n >= 126 {
      assert buf[2..4] == BigEndian(n, 2);
      BigEndianValue(n, 2);
    }
  }

  /** What the decoder makes of a frame with a readable length, whatever follows it. */
  lemma FrameParses(f: Frame, order: LengthOrder, rest: seq<byte>)
    requires |f.payload| < UINT64_RANGE
    requires |f.payload| < 65536 || order.Network?
    ensures Parse(Unmasked(f, order) + rest)
         == if |f.payload| <= MAX_FRAME then Got(f, |Unmasked(f, order)|) else TooLarge
  {
    var n := |f.payload|;
    var field := LengthField(n, false, order);
    LengthFieldParses(FirstByte(f.fin, f.op), n, false, order, f.payload + rest);
    var buf := Unmasked(f, order) + rest;
    assert buf == [FirstByte(f.fin, f.op)] + field + (f.payload + rest);
    var hlen := 1 + |field|;
    assert buf[hlen..hlen + n] == f.payload;
  }

  /** Round trip of the corrected encoder: every frame within the decoder's limit. */
  lemma NetworkRoundTrip(f: Frame, rest: seq<byte>)
    requires |f.payload| <= MAX_FRAME
    ensures Parse(Unmasked(f, Network) + rest) == Got(f, |Unmasked(f, Network)|)
  {
    FrameParses(f, Network, rest);
  }

  /** Round trip of the encoder as written: exactly the payloads below 65536 bytes survive. */
  lemma RoundTripAsWritten(f: Frame, rest: seq<byte>)
    requires |f.payload| < UINT64_RANGE
    ensures Parse(Unmasked(f, LowByteFirst) + rest) == Got(f, |Unmasked(f, LowByteFirst)|)
       <==> |f.payload| < 65536
  {
    var n := |f.payload|;
    if n < 65536 {
      FrameParses(f, LowByteFirst, rest);
    } else {
      var field := LengthField(n, false, LowByteFirst);
      LengthFieldParses(FirstByte(f.fin, f.op), n, false, LowByteFirst, f.payload + rest);
      assert Unmasked(f, LowByteFirst) + rest == [FirstByte(f.fin, f.op)] + field + (f.payload + rest);
      ReversedLengthDiffers(n);
    }
  }

  /** As written, every payload of at least 65536 bytes within the limit is refused as too large. */
  lemma LongFramesRefused(f: Frame, rest: seq<byte>)
    requires 65536 <= |f.payload| <= MAX_FRAME
    ensures Parse(Unmasked(f, LowByteFirst) + rest) == TooLarge
  {
    var n := |f.payload|;
    var field := LengthField(n, false, LowByteFirst);
    LengthFieldParses(FirstByte(f.fin, f.op), n, false, LowByteFirst, f.payload + rest);
    assert Unmasked(f, LowByteFirst) + rest == [FirstByte(f.fin, f.op)] + field + (f.payload + rest);
    ReversedLengthDiffers(n);
  }

  /** A frame of 65536 bytes carries the length bytes 0 0 1 0 0 0 0 0, which say 2^40. */
  lemma LongFrameExample(f: Frame, n: nat)
    requires n == |f.payload| == 65536
    ensures LengthField(n, false, LowByteFirst) == [127, 0, 0, 1, 0, 0, 0, 0, 0]
    ensures Parse(Unmasked(f, LowByteFirst)) == TooLarge
  {
    hide Parse, Unmasked;
    LittleEndianSplit(n, 2, 6);
    LittleEndianOfZero(5);
    assert LittleEndian(n, 8)[0] == n % 256 && LittleEndian(n, 2) == [n % 256] + LittleEndian(n / 256, 1);
    assert Shifted(n, 2) == n / 256 / 256 == 1;
    assert LittleEndian(n / 256 / 256, 6) == [1] + LittleEndian(0, 5);
    LongFramesRefused(f, []);
    assert Unmasked(f, LowByteFirst) + [] == Unmasked(f, LowByteFirst);
  }

  lemma {:induction false} LittleEndianOfZero(k: nat)
    ensures forall i :: 0 <= i < k ==> LittleEndian(0, k)[i] == 0
  {
    if k > 0 {
      LittleEndianOfZero(k - 1);
    }
  }

  /** Round trip of a client's masked frame under any key. */
  lemma MaskedRoundTrip(f: Frame, key: MaskKey, rest: seq<byte>)
    requires |f.payload| <= MAX_FRAME
    ensures Parse(MaskedFrame(f, key, Network) + rest) == Got(f, |MaskedFrame(f, key, Network)|)
  {
    var n := |f.payload|;
    var field := LengthField(n, true, Network);
    var body := Masked(f.payload, key);
    LengthFieldParses(FirstByte(f.fin, f.op), n, true, Network, key + body + rest);
    var buf := MaskedFrame(f, key, Network) + rest;
    assert buf == [FirstByte(f.fin, f.op)] + field + (key + body + rest);
    MaskedPayload([FirstByte(f.fin, f.op)] + field, key, f.payload, rest);
    assert buf == [FirstByte(f.fin, f.op)] + field + key + body + rest;
  }

  lemma MaskedPayload(head: seq<byte>, key: MaskKey, payload: seq<byte>, rest: seq<byte>)
    ensures PayloadAt(head + key + Masked(payload, key) + rest, |head|, true, |payload|) == payload
  {
    var buf := head + key + Masked(payload, key) + rest;
    assert buf[|head|..|head| + 4] == key;
    assert buf[|head| + 4..|head| + 4 + |payload|] == Masked(payload, key);
    MaskTwice(payload, key);
  }

  /** Among all byte strings the decoder reads as this frame, the encoder's is a shortest one. */
  lemma ShortestEncoding(buf: seq<byte>)
    requires Parse(buf).Got?
    ensures var f := Parse(buf).frame;
      Parse(buf).total >= (if buf[1] >= 128 then |MaskedFrame(f, [0, 0, 0, 0], Network)| else |Unmasked(f, Network)|)
  {
    var Header(plen, base, masked) := ParseHeader(buf);
    assert Pow256(2) == 65536;
    if base == 4 {
      ValueBound(buf[2..4]);
    }
  }

  /* ---- the examples of section 5.7 of RFC 6455 ------------------------------------------- */

  const HELLO: seq<byte> := [72, 101, 108, 108, 111]

  /** The five exclusive ors of "Hello" and its key, bit by bit from the top. */
  lemma HelloBits()
    ensures Xor(0x7f, 0x37) == 72 && Xor(0x9f, 0xfa) == 101 && Xor(0x4d, 0x21) == 108 && Xor(0x51, 0x3d) == 108 && Xor(0x58, 0x37) == 111
  {
    hide Pow2;
    assert XorBits(0, 0, 1) == 0 && XorBits(1, 0, 2) == 1 && XorBits(3, 1, 3) == 2 && XorBits(7, 3, 4) == 4;
    assert XorBits(15, 6, 5) == 9 && XorBits(31, 13, 6) == 18 && XorBits(63, 27, 7) == 36;
    assert XorBits(1, 1, 1) == 0 && XorBits(2, 3, 2) == 1 && XorBits(4, 7, 3) == 3 && XorBits(9, 15, 4) == 6;
    assert XorBits(19, 31, 5) == 12 && XorBits(39, 62, 6) == 25 && XorBits(79, 125, 7) == 50;
    assert XorBits(0, 0, 1) == 0 && XorBits(1, 0, 2) == 1 && XorBits(2, 1, 3) == 3 && XorBits(4, 2, 4) == 6;
    assert XorBits(9, 4, 5) == 13 && XorBits(19, 8, 6) == 27 && XorBits(38, 16, 7) == 54;
    assert XorBits(0, 0, 1) == 0 && XorBits(1, 0, 2) == 1 && XorBits(2, 1, 3) == 3 && XorBits(5, 3, 4) == 6;
    assert XorBits(10, 7, 5) == 13 && XorBits(20, 15, 6) == 27 && XorBits(40, 30, 7) == 54;
    assert XorBits(0, 0, 1) == 0 && XorBits(1, 0, 2) == 1 && XorBits(2, 1, 3) == 3 && XorBits(5, 3, 4) == 6;
    assert XorBits(11, 6, 5) == 13 && XorBits(22, 13, 6) == 27 && XorBits(44, 27, 7) == 55;
  }

  /** A masked text message, and a masked pong. */
  lemma MaskedHello()
    ensures Parse([0x81, 0x85, 0x37, 0xfa, 0x21, 0x3d, 0x7f, 0x9f, 0x4d, 0x51, 0x58]) == Got(Frame(true, 1, HELLO), 11)
    ensures Parse([0x8a, 0x85, 0x37, 0xfa, 0x21, 0x3d, 0x7f, 0x9f, 0x4d, 0x51, 0x58]) == Got(Frame(true, 10, HELLO), 11)
  {
    hide Xor, Parse;
    var key: MaskKey, body: seq<byte> := [0x37, 0xfa, 0x21, 0x3d], [0x7f, 0x9f, 0x4d, 0x51, 0x58];
    assert Masked(body, key) == HELLO by {
      HelloBits();
    }
    MaskedExample(0x81, key, body);
    MaskedExample(0x8a, key, body);
    assert [0x81, 0x85] + key + body == [0x81, 0x85, 0x37, 0xfa, 0x21, 0x3d, 0x7f, 0x9f, 0x4d, 0x51, 0x58];
    assert [0x8a, 0x85] + key + body == [0x8a, 0x85, 0x37, 0xfa, 0x21, 0x3d, 0x7f, 0x9f, 0x4d, 0x51, 0x58];
  }

  lemma MaskedExample(first: byte, key: MaskKey, body: seq<byte>)
    requires |body| == 5
    ensures Parse([first, 0x85] + key + body) == Got(Frame(first >= 128, first % 16, Masked(body, key)), 11)
  {
    var buf := [first, 0x85] + key + body;
    assert buf[2..6] == key && buf[6..11] == body;
  }

  /** A text message in one frame and in two, and a ping. */
  lemma PlainHello()
    ensures Parse([0x81, 0x05] + HELLO) == Got(Frame(true, 1, HELLO), 7)
    ensures Parse([0x01, 0x03] + HELLO[..3]) == Got(Frame(false, 1, HELLO[..3]), 5)
    ensures Parse([0x80, 0x02] + HELLO[3..]) == Got(Frame(true, 0, HELLO[3..]), 4)
    ensures Parse([0x89, 0x05] + HELLO) == Got(Frame(true, 9, HELLO), 7)
    ensures Unmasked(Frame(true, 1, HELLO), LowByteFirst) == [0x81, 0x05] + HELLO
    ensures Unmasked(Frame(true, 9, HELLO), LowByteFirst) == [0x89, 0x05] + HELLO
  {
    ShortExample(0x81, HELLO);
    ShortExample(0x01, HELLO[..3]);
    ShortExample(0x80, HELLO[3..]);
    ShortExample(0x89, HELLO);
  }

  lemma ShortExample(first: byte, body: seq<byte>)
    requires |body| < 126
    ensures Parse([first, |body|] + body) == Got(Frame(first >= 128, first % 16, body), |body| + 2)
  {
    var buf := [first, |body|] + body;
    assert buf[2..2 + |body|] == body;
  }

  /** Binary messages of 256 bytes and of 64 KiB, as section 5.7 writes their lengths. */
  lemma LongExamples(d: seq<byte>, e: seq<byte>)
    requires |d| == 256 && |e| == 65536
    ensures Parse([0x82, 0x7e, 0x01, 0x00] + d) == Got(Frame(true, 2, d), 260)
    ensures Parse([0x82, 0x7f, 0, 0, 0, 0, 0, 1, 0, 0] + e) == Got(Frame(true, 2, e), 65546)
    ensures Unmasked(Frame(true, 2, d), LowByteFirst) == [0x82, 0x7e, 0x01, 0x00] + d
  {
    var buf, long := [0x82, 0x7e, 0x01, 0x00] + d, [0x82, 0x7f, 0, 0, 0, 0, 0, 1, 0, 0] + e;
    ValueOfTwo(0x01, 0x00);
    assert buf[2..4] == [0x01, 0x00] && buf[4..260] == d;
    ValueConcat([0, 0, 0, 0, 0], [1, 0, 0]);
    ValueOfThree(1, 0, 0);
    ValueOfZeros();
    assert [0, 0, 0, 0, 0] + [1, 0, 0] == [0, 0, 0, 0, 0, 1, 0, 0];
    assert long[2..10] == [0, 0, 0, 0, 0, 1, 0, 0] && long[10..65546] == e;
    TwoBytes(256);
  }

  lemma ValueOfTwo(a: byte, b: byte)
    ensures Value([a, b]) == 256 * a + b
  {
    assert [a, b][..1] == [a] && [a][..0] == [];
    assert Value([a]) == a;
  }

  lemma ValueOfThree(a: byte, b: byte, c: byte)
    ensures Value([a, b, c]) == 65536 * a + 256 * b + c
  {
    ValueOfTwo(a, b);
    assert [a, b, c][..2] == [a, b];
  }

  lemma ValueOfZeros()
    ensures Value([0, 0, 0, 0, 0]) == 0
  {
    assert [0, 0, 0, 0, 0][..4] == [0, 0, 0, 0] && [0, 0, 0, 0][..3] == [0, 0, 0];
    ValueOfThree(0, 0, 0);
  }

  /** The limit is 16 MiB: a header that announces as much waits for it, one more is refused at once. */
  lemma LimitExample()
    ensures Parse([0x82, 0x7f, 0, 0, 0, 0, 1, 0, 0, 0]) == NeedMore
    ensures Parse([0x82, 0x7f, 0, 0, 0, 0, 1, 0, 0, 1]) == TooLarge
  {
    var zeros, a, b := [0, 0, 0, 0], [0x82, 0x7f, 0, 0, 0, 0, 1, 0, 0, 0], [0x82, 0x7f, 0, 0, 0, 0, 1, 0, 0, 1];
    ValueOfThree(0, 0, 0);
    assert zeros[..3] == [0, 0, 0];
    ValueConcat(zeros, [1, 0, 0, 0]);
    ValueConcat(zeros, [1, 0, 0, 1]);
    ValueOfThree(1, 0, 0);
    assert [1, 0, 0, 0][..3] == [1, 0, 0] && [1, 0, 0, 1][..3] == [1, 0, 0];
    assert a[2..10] == zeros + [1, 0, 0, 0] && b[2..10] == zeros + [1, 0, 0, 1];
  }
}
