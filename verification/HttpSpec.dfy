/** The framing part of the llhttp request parser in strict mode, as a function on bytes: what
    one byte does to the parser, and what it makes the callbacks see. Spans are recorded byte by
    byte, so the result does not speak of how the input was cut.

    The recognisers of the request line and of chunk extensions are parameters: any function of
    the bytes read since the line or the extension began. */
module HttpSpec {
  import opened Bytes

  const UINT64_MAX := 0xffff_ffff_ffff_ffff

  /* Error codes (llhttp_errno). */
  const HPE_STRICT := 2
  const HPE_LF_EXPECTED := 3
  const HPE_UNEXPECTED_CONTENT_LENGTH := 4
  const HPE_CLOSED_CONNECTION := 5
  const HPE_INVALID_HEADER_TOKEN := 10
  const HPE_INVALID_CONTENT_LENGTH := 11
  const HPE_INVALID_CHUNK_SIZE := 12
  const HPE_INVALID_TRANSFER_ENCODING := 15
  const HPE_PAUSED := 21
  const HPE_PAUSED_UPGRADE := 22
  const HPE_USER := 24
  const HPE_CR_EXPECTED := 25
  const HPE_UNEXPECTED_SPACE := 30

  /** An error that ends the parser; the two pauses do not. */
  type Errno = code: int | code != 0 && code != HPE_PAUSED && code != HPE_PAUSED_UPGRADE witness 1

  /** Verdict of a line recogniser on the bytes read so far. */
  datatype Verdict = More | Done(connect: bool, major: nat, minor: nat) | Bad(code: Errno)

  datatype Grammar = Grammar(line: seq<byte> -> Verdict, ext: seq<byte> -> Verdict)

  datatype Flags = Flags(keepAlive: bool, close: bool, connUpgrade: bool, chunked: bool, upgrade: bool,
                         contentLength: bool, trailing: bool, transferEncoding: bool)

  const NO_FLAGS := Flags(false, false, false, false, false, false, false, false)

  /** `header_state`: the header being read, or the last connection or coding token seen in it. */
  datatype HeaderKind =
    | General | Connection | ContentLength | TransferEncoding | Upgrade
    | TokenKeepAlive | TokenClose | TokenUpgrade | TokenChunked

  /** The rest of a keyword after its first letter, as the machine's match states read it. */
  datatype Word = On | Ection | EntLength | RoxyConnection | RansferEncoding | Pgrade | Lose | EepAlive | Chunked

  function Letters(w: Word): (s: seq<byte>)
    ensures 2 <= |s| && forall i :: 0 <= i < |s| ==> 97 <= s[i] <= 122 || s[i] == 45
  {
    match w
    case On => [111, 110]
    case Ection => [101, 99, 116, 105, 111, 110]
    case EntLength => [101, 110, 116, 45, 108, 101, 110, 103, 116, 104]
    case RoxyConnection => [114, 111, 120, 121, 45, 99, 111, 110, 110, 101, 99, 116, 105, 111, 110]
    case RansferEncoding => [114, 97, 110, 115, 102, 101, 114, 45, 101, 110, 99, 111, 100, 105, 110, 103]
    case Pgrade => [112, 103, 114, 97, 100, 101]
    case Lose => [108, 111, 115, 101]
    case EepAlive => [101, 101, 112, 45, 97, 108, 105, 118, 101]
    case Chunked => [99, 104, 117, 110, 107, 101, 100]
  }

  datatype St =
    // between messages, request line
    | Start | OnReset | OnBegin | Line
    // header names
    | HeadersStart | FieldStart | Field | FieldWord(word: Word) | FieldCo | FieldColon | FieldGeneral
    | FieldOtherwise | FieldDone | FieldKnown
    // header values
    | DiscardWs | DiscardWsLf | DiscardLws | ValueStart | Length | LengthWs | TeChunked | TeLast | TeToken | TeOws
    | Value | Conn | ConnWord(word: Word) | ConnWs | ConnToken | ValueEnd | ValueLf | ValueLws | ValueDone
    // end of headers
    | HeadersLf | HeadersDone | AfterHeaders
    // bodies
    | ChunkClear | ChunkDigit | ChunkSize | ChunkSizeEnd | Ext | ChunkSizeLf | OnChunkHeader | ChunkKind
    | ChunkStart | ChunkData | ChunkDataCr | ChunkDataLf | ChunkDone | TrailersDone
    | BodyStart | Body | EofStart | EofBody
    // end of message
    | NoBodyComplete | UpgradeComplete | BodyComplete | CheckUpgrade | GoUpgrade | AfterMessage | Closed | Upgraded
    // errors; a byte refused in a header name leaves its span open
    | GoFail(code: Errno) | Failed(code: Errno) | NameFailed

  datatype SpanKind = FieldSpan | ValueSpan | BodySpan

  datatype Event =
    | Reset | MessageBegin
    | SpanByte(kind: SpanKind, b: byte)
    | FieldComplete | ValueComplete | HeadersComplete
    | ChunkHeader(size: nat) | ChunkComplete | MessageComplete

  /** The parser's state with everything the callbacks have seen. `index` is the position in the
      keyword being matched, `token` the bytes given to the current line recogniser. */
  datatype Core = Core(st: St, length: nat, flags: Flags, hs: HeaderKind, index: nat, upgrade: bool,
                       connect: bool, major: nat, minor: nat, seen: bool, token: seq<byte>, log: seq<Event>)

  const INITIAL := Core(Start, 0, NO_FLAGS, General, 0, false, false, 0, 0, false, [], [])

  function Fail(s: Core, code: Errno): Core {
    s.(st := Failed(code))
  }

  /** The error that a state stands for; 0 for none. */
  function ErrorOf(s: Core): int {
    match s.st
    case Failed(code) => code
    case NameFailed => HPE_INVALID_HEADER_TOKEN
    case Upgraded => HPE_PAUSED_UPGRADE
    case _ => 0
  }

  function Note(s: Core, e: Event): Core {
    s.(log := s.log + [e])
  }

  /** Take b into the open span of the given kind and go to state st. */
  function Into(s: Core, kind: SpanKind, b: byte, st: St): Core {
    s.(st := st, log := s.log + [SpanByte(kind, b)])
  }

  /* ---- character classes ----------------------------------------------------------------- */

  predicate IsToken(b: byte) {
    || b == 33 || 35 <= b <= 39 || b == 42 || b == 43 || b == 45 || b == 46
    || 48 <= b <= 57 || 65 <= b <= 90 || 94 <= b <= 122 || b == 124 || b == 126
  }

  predicate IsFieldValue(b: byte) {
    b == HT || (32 <= b && b != 127)
  }

  predicate IsBlank(b: byte) {
    b == HT || b == SP
  }

  predicate IsDigit(b: byte) {
    48 <= b <= 57
  }

  predicate IsHex(b: byte) {
    IsDigit(b) || 65 <= b <= 70 || 97 <= b <= 102
  }

  function HexValue(b: byte): (v: nat)
    requires IsHex(b)
    ensures v < 16
  {
    if b <= 57 then b - 48 else if b <= 70 then b - 55 else b - 87
  }

  /** `b | 0x20` */
  function OrBit5(b: byte): byte {
    if b / 32 % 2 == 1 then b else b + 32
  }

  const COLON: byte := 58
  const COMMA: byte := 44
  const SEMICOLON: byte := 59

  /* ---- http.c ------------------------------------------------------------------------------ */

  datatype Kind = Request | Response(status: nat)

  function MessageNeedsEof(kind: Kind, f: Flags, skipBody: bool): bool {
    match kind
    case Request => false
    case Response(status) =>
      if status / 100 == 1 || status == 204 || status == 304 || skipBody then false
      else if f.transferEncoding && !f.chunked then true
      else if f.chunked || f.contentLength then false
      else true
  }

  /** llhttp__after_headers_complete: 0 no body, 1 leave the protocol, 2 chunks, 3 a body of known
      length, 4 a body up to the end of the connection, 5 a coding a request must not have. */
  function AfterHeadersComplete(kind: Kind, f: Flags, skipBody: bool, upgrade: bool, connect: bool, length: nat): nat {
    var hasBody := f.chunked || length > 0;
    if (upgrade && (connect || skipBody || !hasBody)) || kind == Response(101) then 1
    else if kind == Response(100) then 0
    else if skipBody || (kind.Response? && kind.status in {102, 103, 204, 304}) then 0
    else if f.chunked then 2
    else if f.transferEncoding then if kind.Request? then 5 else 4
    else if !f.contentLength then if MessageNeedsEof(kind, f, skipBody) then 4 else 0
    else if length == 0 then 0 else 3
  }

  /** llhttp_should_keep_alive */
  function ShouldKeepAlive(kind: Kind, f: Flags, skipBody: bool, major: nat, minor: nat): bool {
    && (if major > 0 && minor > 0 then !f.close else f.keepAlive)
    && !MessageNeedsEof(kind, f, skipBody)
  }

  /** llhttp__before_headers_complete, for a request. */
  function UpgradeWanted(s: Core): bool {
    if s.flags.upgrade && s.flags.connUpgrade then true else s.connect
  }

  /* ---- states that need no byte --------------------------------------------------------------- */

  predicate NeedsNoByte(st: St) {
    || st.OnReset? || st.OnBegin? || st.FieldDone? || st.FieldKnown? || st.ValueDone? || st.HeadersDone?
    || st.AfterHeaders? || st.ChunkClear? || st.OnChunkHeader? || st.ChunkKind? || st.ChunkDone? || st.TrailersDone?
    || st.NoBodyComplete? || st.UpgradeComplete? || st.BodyComplete? || st.CheckUpgrade? || st.GoUpgrade?
    || st.AfterMessage? || st.GoFail?
  }

  /** A bound on the moves from a state that needs no byte to one that does. */
  function Pending(st: St): nat {
    match st
    case TrailersDone => 4 case HeadersDone => 4
    case BodyComplete => 3 case AfterHeaders => 3
    case OnReset => 2 case FieldDone => 2 case OnChunkHeader => 2 case ChunkDone => 2 case CheckUpgrade => 2
    case NoBodyComplete => 2 case UpgradeComplete => 2
    case OnBegin => 1 case FieldKnown => 1 case ValueDone => 1 case ChunkClear => 1 case ChunkKind => 1
    case GoUpgrade => 1 case AfterMessage => 1 case GoFail(_) => 1
    case _ => 0
  }

  /** A bound on the moves the machine can make from st without taking a byte. */
  function Rank(st: St): nat {
    match st
    case Failed(_) => 0 case NameFailed => 0 case Upgraded => 0 case GoFail(_) => 1
    case FieldOtherwise => 2 case FieldGeneral => 3 case FieldColon => 4 case FieldWord(_) => 4 case FieldCo => 4
    case Field => 5 case FieldStart => 6 case HeadersStart => 7 case ValueDone => 8 case ValueLws => 9 case DiscardLws => 9
    case ValueEnd => 2 case Value => 3 case TeToken => 4 case TeChunked => 5 case TeLast => 5 case TeOws => 6
    case ConnToken => 3 case ConnWord(_) => 4 case ConnWs => 4 case Conn => 4 case LengthWs => 3 case Length => 4
    case ValueStart => 7 case DiscardWs => 8 case FieldKnown => 9 case FieldDone => 10
    case ChunkSizeEnd => 2 case ChunkSize => 3 case ChunkData => 1 case Body => 1 case EofBody => 1
    case ChunkStart => 2 case BodyStart => 2 case EofStart => 2
    case ChunkKind => 7 case OnChunkHeader => 8 case ChunkClear => 3 case ChunkDone => 4
    case Line => 2 case OnBegin => 3 case OnReset => 4 case Start => 5 case Closed => 2
    case GoUpgrade => 3 case AfterMessage => 6 case CheckUpgrade => 7 case BodyComplete => 8 case TrailersDone => 9
    case NoBodyComplete => 8 case UpgradeComplete => 8 case AfterHeaders => 9 case HeadersDone => 10
    case _ => 2
  }

  /** `header_state` as the value's last token left it, turned into flags. */
  function ApplyToken(s: Core): Core {
    match s.hs
    case TokenKeepAlive => s.(flags := s.flags.(keepAlive := true), hs := Connection)
    case TokenClose => s.(flags := s.flags.(close := true), hs := Connection)
    case TokenUpgrade => s.(flags := s.flags.(connUpgrade := true), hs := Connection)
    case TokenChunked => s.(flags := s.flags.(chunked := true))
    case _ => s
  }

  /** One move of the machine from a state that needs no byte. */
  function Move(s: Core): Core
    requires NeedsNoByte(s.st)
  {
    match s.st
    case OnReset => Note(s, Reset).(st := OnBegin)
    case OnBegin => Note(s, MessageBegin).(st := Line, token := [])
    case FieldDone => Note(s, FieldComplete).(st := FieldKnown)
    case FieldKnown =>
      if s.hs == ContentLength && s.flags.transferEncoding then Fail(s, HPE_INVALID_CONTENT_LENGTH)
      else if s.hs == TransferEncoding && s.flags.contentLength then Fail(s, HPE_INVALID_TRANSFER_ENCODING)
      else s.(st := DiscardWs)
    case ValueDone => Note(s, ValueComplete).(st := FieldStart)
    case HeadersDone => Note(s, HeadersComplete).(st := AfterHeaders, upgrade := UpgradeWanted(s))
    case AfterHeaders =>
      var code := AfterHeadersComplete(Request, s.flags, false, s.upgrade, s.connect, s.length);
      if code == 1 then s.(st := UpgradeComplete)
      else if code == 2 then s.(st := ChunkClear)
      else if code == 3 then s.(st := BodyStart)
      else if code == 4 then s.(st := EofStart)
      else if code == 5 then Fail(s, HPE_INVALID_TRANSFER_ENCODING)
      else s.(st := NoBodyComplete)
    case ChunkClear => s.(st := ChunkDigit, length := 0)
    case OnChunkHeader => Note(s, ChunkHeader(s.length)).(st := ChunkKind)
    case ChunkKind => if s.length == 0 then s.(st := FieldStart, flags := s.flags.(trailing := true)) else s.(st := ChunkStart)
    case ChunkDone => Note(s, ChunkComplete).(st := ChunkClear)
    case TrailersDone => Note(s, ChunkComplete).(st := BodyComplete)
    case NoBodyComplete => Note(s, MessageComplete).(st := AfterMessage)
    case UpgradeComplete => Note(s, MessageComplete).(st := GoUpgrade)
    case BodyComplete => Note(s, MessageComplete).(st := CheckUpgrade)
    case CheckUpgrade => s.(st := if s.upgrade then GoUpgrade else AfterMessage)
    case GoUpgrade => s.(st := Upgraded)
    case AfterMessage =>
      if ShouldKeepAlive(Request, s.flags, false, s.major, s.minor) then s.(st := Start, flags := NO_FLAGS, length := 0, seen := true)
      else s.(st := Closed, flags := NO_FLAGS)
    case GoFail(code) => Fail(s, code)
  }

  lemma MovesEnd(s: Core)
    requires NeedsNoByte(s.st)
    ensures Pending(Move(s).st) < Pending(s.st)
  {
    hide Move, Pending;
    if s.st.OnReset? || s.st.OnBegin? || s.st.FieldDone? || s.st.FieldKnown? || s.st.ValueDone? || s.st.HeadersDone? {
      HeaderMovesEnd(s);
    } else if s.st.NoBodyComplete? || s.st.UpgradeComplete? || s.st.BodyComplete? {
      CompleteMovesEnd(s);
    } else if s.st.CheckUpgrade? || s.st.GoUpgrade? || s.st.AfterMessage? || s.st.GoFail? {
      LastMovesEnd(s);
    } else {
      ChunkMovesEnd(s);
    }
  }

  lemma HeaderMovesEnd(s: Core)
    requires s.st.OnReset? || s.st.OnBegin? || s.st.FieldDone? || s.st.FieldKnown? || s.st.ValueDone? || s.st.HeadersDone?
    ensures NeedsNoByte(s.st) && Pending(Move(s).st) < Pending(s.st)
  {
    hide UpgradeWanted;
    match s.st
    case OnReset =>
    case OnBegin =>
    case FieldDone =>
    case FieldKnown =>
    case ValueDone =>
    case HeadersDone =>
  }

  lemma ChunkMovesEnd(s: Core)
    requires s.st.AfterHeaders? || s.st.ChunkClear? || s.st.OnChunkHeader? || s.st.ChunkKind? || s.st.ChunkDone? || s.st.TrailersDone?
    ensures NeedsNoByte(s.st) && Pending(Move(s).st) < Pending(s.st)
  {
    hide AfterHeadersComplete;
    match s.st
    case AfterHeaders =>
    case ChunkClear =>
    case OnChunkHeader =>
    case ChunkKind =>
    case ChunkDone =>
    case TrailersDone =>
  }

  lemma CompleteMovesEnd(s: Core)
    requires s.st.NoBodyComplete? || s.st.UpgradeComplete? || s.st.BodyComplete?
    ensures NeedsNoByte(s.st) && Pending(Move(s).st) < Pending(s.st)
  {
  }

  lemma LastMovesEnd(s: Core)
    requires s.st.CheckUpgrade? || s.st.GoUpgrade? || s.st.AfterMessage? || s.st.GoFail?
    ensures NeedsNoByte(s.st) && Pending(Move(s).st) < Pending(s.st)
  {
    hide ShouldKeepAlive;
  }

  /** Run until a byte is needed or nothing more can happen. */
  function Settle(s: Core): (r: Core)
    ensures !NeedsNoByte(r.st)
    decreases Pending(s.st)
  {
    if NeedsNoByte(s.st) then
      MovesEnd(s);
      Settle(Move(s))
    else s
  }

  /* ---- one byte ------------------------------------------------------------------------------ */

  /** mul_add with its overflow guards: -1 when one of them fires. */
  function MulAdd(n: nat, base: nat, d: nat): (r: int)
    requires base == 10 || base == 16
  {
    if n > UINT64_MAX / base then -1 else if n * base > UINT64_MAX - d then -1 else n * base + d
  }

  function InValueEnd(s: Core, b: byte): Core {
    if b == LF then Fail(s, HPE_CR_EXPECTED)
    else if b == CR then s.(st := ValueLf)
    else Fail(s, HPE_INVALID_HEADER_TOKEN)
  }

  function InValue(s: Core, b: byte): Core {
    if IsFieldValue(b) then Into(s, ValueSpan, b, Value) else InValueEnd(s, b)
  }

  function InTeToken(s: Core, b: byte): Core {
    if b == COMMA then Into(s, ValueSpan, b, TeOws)
    else if IsFieldValue(b) then Into(s, ValueSpan, b, TeToken)
    else InValue(s.(hs := General), b)
  }

  function InTeChunked(s: Core, b: byte): Core {
    var word := Letters(Chunked);
    if s.index < |word| && OrBit5(b) == word[s.index] then
      if s.index + 1 == |word| then Into(s.(index := 0), ValueSpan, b, TeLast)
      else Into(s.(index := s.index + 1), ValueSpan, b, TeChunked)
    else InTeToken(s.(index := 0), b)
  }

  function InTeLast(s: Core, b: byte): Core {
    if b == LF || b == CR then InValueEnd(s.(hs := TokenChunked), b)
    else if b == SP then Into(s, ValueSpan, b, TeLast)
    else if b == COMMA then Fail(s, HPE_INVALID_TRANSFER_ENCODING)
    else InTeToken(s, b)
  }

  function InTeOws(s: Core, b: byte): Core {
    if IsBlank(b) then Into(s, ValueSpan, b, TeOws) else InTeChunked(s, b)
  }

  function InConnToken(s: Core, b: byte): Core {
    if b == COMMA then Into(s, ValueSpan, b, Conn)
    else if IsFieldValue(b) then Into(s, ValueSpan, b, ConnToken)
    else InValueEnd(s, b)
  }

  function WordToken(w: Word): HeaderKind {
    match w case Lose => TokenClose case EepAlive => TokenKeepAlive case _ => TokenUpgrade
  }

  function InConnWord(s: Core, w: Word, b: byte): Core {
    var word := Letters(w);
    if s.index < |word| && LowerByte(b) == word[s.index] then
      if s.index + 1 == |word| then Into(s.(index := 0, hs := WordToken(w)), ValueSpan, b, ConnWs)
      else Into(s.(index := s.index + 1), ValueSpan, b, ConnWord(w))
    else InConnToken(s.(index := 0), b)
  }

  function InConn(s: Core, b: byte): Core {
    var c := LowerByte(b);
    if IsBlank(b) then Into(s, ValueSpan, b, Conn)
    else if c == 99 then Into(s, ValueSpan, b, ConnWord(Lose))
    else if c == 107 then Into(s, ValueSpan, b, ConnWord(EepAlive))
    else if c == 117 then Into(s, ValueSpan, b, ConnWord(Pgrade))
    else InConnToken(s, b)
  }

  function InConnWs(s: Core, b: byte): Core {
    if b == LF || b == CR then InValueEnd(s, b)
    else if b == SP then Into(s, ValueSpan, b, ConnWs)
    else if b == COMMA then Into(ApplyToken(s), ValueSpan, b, Conn)
    else InConnToken(s.(hs := General), b)
  }

  function InLengthWs(s: Core, b: byte): Core {
    if IsBlank(b) then Into(s, ValueSpan, b, LengthWs)
    else if b == LF || b == CR then InValueEnd(s.(flags := s.flags.(contentLength := true)), b)
    else Fail(s, HPE_INVALID_CONTENT_LENGTH)
  }

  function InLength(s: Core, b: byte): Core {
    if IsDigit(b) then
      var n := MulAdd(s.length, 10, b - 48);
      if n < 0 then Into(s, ValueSpan, b, Failed(HPE_INVALID_CONTENT_LENGTH)).(length := AfterOverflow(s.length, 10))
      else Into(s, ValueSpan, b, Length).(length := n)
    else InLengthWs(s, b)
  }

  /** What a failed mul_add leaves behind: the product, when it was the addition that overflowed. */
  function AfterOverflow(n: nat, base: nat): nat
    requires base == 10 || base == 16
  {
    if n > UINT64_MAX / base then n else n * base
  }

  function InValueStart(s: Core, b: byte): Core {
    match s.hs
    case Connection => InConn(s, b)
    case ContentLength => if s.flags.contentLength then Fail(s, HPE_UNEXPECTED_CONTENT_LENGTH) else InLength(s, b)
    case TransferEncoding =>
      if s.flags.chunked then Fail(s, HPE_INVALID_TRANSFER_ENCODING)
      else InTeChunked(s.(flags := s.flags.(transferEncoding := true, chunked := false)), b)
    case Upgrade => InValue(s.(flags := s.flags.(upgrade := true), hs := General), b)
    case _ => InValue(s, b)
  }

  function InFieldOtherwise(s: Core, b: byte): Core {
    if b == COLON then s.(st := FieldDone) else s.(st := NameFailed)
  }

  function InFieldGeneral(s: Core, b: byte): Core {
    if IsToken(b) then Into(s, FieldSpan, b, FieldGeneral) else InFieldOtherwise(s, b)
  }

  function InFieldColon(s: Core, b: byte): Core {
    if b == SP then Fail(s, HPE_INVALID_HEADER_TOKEN)
    else if b == COLON then s.(st := FieldDone)
    else InFieldGeneral(s.(hs := General), b)
  }

  /** After a whole keyword of a header name. */
  function WordField(s: Core, w: Word): Core {
    match w
    case On => s.(st := FieldCo)
    case EntLength => s.(st := FieldColon, hs := ContentLength)
    case RansferEncoding => s.(st := FieldColon, hs := TransferEncoding)
    case Pgrade => s.(st := FieldColon, hs := Upgrade)
    case _ => s.(st := FieldColon, hs := Connection)
  }

  function InFieldWord(s: Core, w: Word, b: byte): Core {
    var word := Letters(w);
    if s.index < |word| && LowerByte(b) == word[s.index] then
      if s.index + 1 == |word| then WordField(Into(s.(index := 0), FieldSpan, b, Field), w)
      else Into(s.(index := s.index + 1), FieldSpan, b, FieldWord(w))
    else InFieldGeneral(s.(index := 0, hs := General), b)
  }

  function InFieldCo(s: Core, b: byte): Core {
    var c := LowerByte(b);
    if c == 110 then Into(s, FieldSpan, b, FieldWord(Ection))
    else if c == 116 then Into(s, FieldSpan, b, FieldWord(EntLength))
    else InFieldGeneral(s.(hs := General), b)
  }

  function InField(s: Core, b: byte): Core {
    var c := LowerByte(b);
    if c == 99 then Into(s, FieldSpan, b, FieldWord(On))
    else if c == 112 then Into(s, FieldSpan, b, FieldWord(RoxyConnection))
    else if c == 116 then Into(s, FieldSpan, b, FieldWord(RansferEncoding))
    else if c == 117 then Into(s, FieldSpan, b, FieldWord(Pgrade))
    else InFieldGeneral(s.(hs := General), b)
  }

  function InFieldStart(s: Core, b: byte): Core {
    if b == LF || b == COLON then Fail(s, HPE_INVALID_HEADER_TOKEN)
    else if b == CR then s.(st := HeadersLf)
    else InField(s, b)
  }

  function InDiscardWs(s: Core, b: byte): Core {
    if IsBlank(b) then s.(st := DiscardWs)
    else if b == LF then Fail(s, HPE_INVALID_HEADER_TOKEN)
    else if b == CR then s.(st := DiscardWsLf)
    else InValueStart(s, b)
  }

  /** The line after an empty value, or after any value: no folding in strict mode. */
  function InDiscardLws(s: Core, b: byte): Core {
    if IsBlank(b) then Fail(s, HPE_INVALID_HEADER_TOKEN)
    else if s.hs == ContentLength then Fail(s, HPE_INVALID_CONTENT_LENGTH)
    else InFieldStart(Note(ApplyToken(s), ValueComplete), b)
  }

  function InValueLws(s: Core, b: byte): Core {
    if IsBlank(b) then Fail(s, HPE_INVALID_HEADER_TOKEN)
    else InFieldStart(Note(ApplyToken(s), ValueComplete), b)
  }

  function ChunkSizeDigit(s: Core, b: byte): Core
    requires IsHex(b)
  {
    var n := MulAdd(s.length, 16, HexValue(b));
    if n < 0 then Fail(s, HPE_INVALID_CHUNK_SIZE).(length := AfterOverflow(s.length, 16)) else s.(st := ChunkSize, length := n)
  }

  function InChunkSizeEnd(s: Core, b: byte): Core {
    if b == LF then Fail(s, HPE_CR_EXPECTED)
    else if b == CR then s.(st := ChunkSizeLf)
    else if b == SEMICOLON then s.(st := Ext, token := [])
    else Fail(s, HPE_INVALID_CHUNK_SIZE)
  }

  function InExt(g: Grammar, s: Core, b: byte): Core {
    var t := s.token + [b];
    match g.ext(t)
    case More => s.(token := t)
    case Done(_, _, _) => s.(token := t, st := ChunkSizeLf)
    case Bad(code) => Fail(s.(token := t), code)
  }

  function InLine(g: Grammar, s: Core, b: byte): Core {
    var t := s.token + [b];
    match g.line(t)
    case More => s.(token := t)
    case Done(connect, major, minor) => s.(token := t, st := HeadersStart, connect := connect, major := major, minor := minor)
    case Bad(code) => Fail(s.(token := t), code)
  }

  /** One body byte; after the last one the machine goes on to `next`. */
  function InBody(s: Core, b: byte, st: St, next: St): Core {
    var n := if s.length == 0 then 0 else s.length - 1;
    Into(s, BodySpan, b, if n == 0 then next else st).(length := n)
  }

  function InStart(g: Grammar, s: Core, b: byte): Core {
    if b == CR || b == LF then s
    else InLine(g, Settle(s.(st := if s.seen then OnReset else OnBegin)), b)
  }

  function Expect(s: Core, b: byte, want: byte, st: St, code: Errno): Core {
    if b == want then s.(st := st) else Fail(s, code)
  }

  /** What byte b does to a parser that is waiting for one. */
  function Step(g: Grammar, s: Core, b: byte): Core {
    match s.st
    case Start => InStart(g, s, b)
    case Line => InLine(g, s, b)
    case HeadersStart => if b == SP then Fail(s, HPE_UNEXPECTED_SPACE) else InFieldStart(s, b)
    case FieldStart => InFieldStart(s, b)
    case Field => InField(s, b)
    case FieldWord(w) => InFieldWord(s, w, b)
    case FieldCo => InFieldCo(s, b)
    case FieldColon => InFieldColon(s, b)
    case FieldGeneral => InFieldGeneral(s, b)
    case FieldOtherwise => InFieldOtherwise(s, b)
    case DiscardWs => InDiscardWs(s, b)
    case DiscardWsLf => Expect(s, b, LF, DiscardLws, HPE_STRICT)
    case DiscardLws => InDiscardLws(s, b)
    case ValueStart => InValueStart(s, b)
    case Length => InLength(s, b)
    case LengthWs => InLengthWs(s, b)
    case TeChunked => InTeChunked(s, b)
    case TeLast => InTeLast(s, b)
    case TeToken => InTeToken(s, b)
    case TeOws => InTeOws(s, b)
    case Value => InValue(s, b)
    case Conn => InConn(s, b)
    case ConnWord(w) => InConnWord(s, w, b)
    case ConnWs => InConnWs(s, b)
    case ConnToken => InConnToken(s, b)
    case ValueEnd => InValueEnd(s, b)
    case ValueLf => Expect(s, b, LF, ValueLws, HPE_LF_EXPECTED)
    case ValueLws => InValueLws(s, b)
    case HeadersLf => Expect(s, b, LF, if s.flags.trailing then TrailersDone else HeadersDone, HPE_STRICT)
    case ChunkDigit => if IsHex(b) then ChunkSizeDigit(s, b) else Fail(s, HPE_INVALID_CHUNK_SIZE)
    case ChunkSize => if IsHex(b) then ChunkSizeDigit(s, b) else InChunkSizeEnd(s, b)
    case ChunkSizeEnd => InChunkSizeEnd(s, b)
    case Ext => InExt(g, s, b)
    case ChunkSizeLf => Expect(s, b, LF, OnChunkHeader, HPE_STRICT)
    case ChunkStart => InBody(s, b, ChunkData, ChunkDataCr)
    case ChunkData => InBody(s, b, ChunkData, ChunkDataCr)
    case ChunkDataCr => if b == LF then Fail(s, HPE_CR_EXPECTED) else Expect(s, b, CR, ChunkDataLf, HPE_STRICT)
    case ChunkDataLf => Expect(s, b, LF, ChunkDone, HPE_STRICT)
    case BodyStart => InBody(s, b, Body, BodyComplete)
    case Body => InBody(s, b, Body, BodyComplete)
    case EofStart => Into(s, BodySpan, b, EofBody)
    case EofBody => Into(s, BodySpan, b, EofBody)
    case Closed => if b == CR || b == LF then s else Fail(s, HPE_CLOSED_CONNECTION)
    case _ => s
  }

  /** What a whole byte string does. */
  function Feed(g: Grammar, s: Core, bytes: seq<byte>): Core
    decreases |bytes|
  {
    if bytes == [] then Settle(s) else Feed(g, Step(g, Settle(s), bytes[0]), bytes[1..])
  }

  function FeedAll(g: Grammar, s: Core, pieces: seq<seq<byte>>): Core
    decreases |pieces|
  {
    if pieces == [] then Settle(s) else FeedAll(g, Feed(g, s, pieces[0]), pieces[1..])
  }

  lemma SettleTwice(s: Core)
    ensures Settle(Settle(s)) == Settle(s)
  {
  }

  lemma {:induction false} FeedConcat(g: Grammar, s: Core, a: seq<byte>, b: seq<byte>)
    ensures Feed(g, Feed(g, s, a), b) == Feed(g, s, a + b)
    decreases |a|
  {
    if a == [] {
      assert a + b == b;
      SettleTwice(s);
      FeedSettled(g, s, b);
    } else {
      assert (a + b)[1..] == a[1..] + b;
      FeedConcat(g, Step(g, Settle(s), a[0]), a[1..], b);
    }
  }

  lemma FeedSettled(g: Grammar, s: Core, bytes: seq<byte>)
    ensures Feed(g, Settle(s), bytes) == Feed(g, s, bytes)
  {
    SettleTwice(s);
  }

  lemma {:induction false} FeedAllIsFeed(g: Grammar, s: Core, pieces: seq<seq<byte>>)
    ensures FeedAll(g, s, pieces) == Feed(g, s, Flatten(pieces))
    decreases |pieces|
  {
    if pieces != [] {
      FeedAllIsFeed(g, Feed(g, s, pieces[0]), pieces[1..]);
      FeedConcat(g, s, pieces[0], Flatten(pieces[1..]));
    }
  }
}
