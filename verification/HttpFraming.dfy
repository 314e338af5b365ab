/** What every run of the request parser keeps, and what it makes of lengths and bodies
    (sections 6.3 and 7.1 of RFC 9112). */
module HttpFraming {
  import opened Bytes
  import opened HttpSpec
  import opened HttpSteps

  /* ---- the invariant of all runs -------------------------------------------------------------- */

  /** Where in a message the machine is. */
  datatype Phase =
    | InFront         // no header read yet
    | InName          // reading a header name
    | NameRead        // `hs` tells the name just read
    | ValuePhase      // reading a header value
    | LengthPhase     // reading the digits of Content-Length
    | CodingPhase     // reading the tokens of Transfer-Encoding
    | ChunkPhase      // between the data of two chunks
    | ChunkDataPhase
    | BodyPhase
    | EofPhase
    | OtherPhase

  function PhaseOf(st: St): Phase {
    match st
    case Start => InFront case OnReset => InFront case OnBegin => InFront case Line => InFront case HeadersStart => InFront
    case FieldStart => InName case Field => InName case FieldWord(_) => InName case FieldCo => InName case HeadersLf => InName
    case FieldColon => NameRead case FieldGeneral => NameRead case FieldOtherwise => NameRead case FieldDone => NameRead
    case FieldKnown => NameRead
    case DiscardWs => ValuePhase case DiscardWsLf => ValuePhase case DiscardLws => ValuePhase case ValueStart => ValuePhase
    case Value => ValuePhase case Conn => ValuePhase case ConnWord(_) => ValuePhase case ConnWs => ValuePhase case ConnToken => ValuePhase
    case ValueEnd => ValuePhase case ValueLf => ValuePhase case ValueLws => ValuePhase case ValueDone => ValuePhase
    case Length => LengthPhase case LengthWs => LengthPhase
    case TeChunked => CodingPhase case TeLast => CodingPhase case TeToken => CodingPhase case TeOws => CodingPhase
    case ChunkClear => ChunkPhase case ChunkDigit => ChunkPhase case ChunkSize => ChunkPhase case ChunkSizeEnd => ChunkPhase
    case Ext => ChunkPhase case ChunkSizeLf => ChunkPhase case OnChunkHeader => ChunkPhase case ChunkKind => ChunkPhase
    case ChunkDataCr => ChunkPhase case ChunkDataLf => ChunkPhase case ChunkDone => ChunkPhase case TrailersDone => ChunkPhase
    case ChunkStart => ChunkDataPhase case ChunkData => ChunkDataPhase
    case BodyStart => BodyPhase case Body => BodyPhase
    case EofStart => EofPhase case EofBody => EofPhase
    case _ => OtherPhase
  }

  predicate IsNameKind(hs: HeaderKind) {
    hs.General? || hs.Connection? || hs.ContentLength? || hs.TransferEncoding? || hs.Upgrade?
  }

  /** The length counter is zero until Content-Length digits are read, the two framing headers
      exclude each other, and no body runs to the end of the connection. */
  predicate FramedIn(p: Phase, hs: HeaderKind, f: Flags, length: nat) {
    && length <= UINT64_MAX
    && !(f.contentLength && f.transferEncoding)
    && (f.chunked ==> f.transferEncoding)
    && (f.trailing ==> f.chunked)
    && match p
       case InFront => f == NO_FLAGS && length == 0
       case InName => !f.contentLength ==> length == 0
       case NameRead => (!f.contentLength ==> length == 0) && IsNameKind(hs)
       case ValuePhase =>
         && (!f.contentLength ==> length == 0)
         && (hs.ContentLength? ==> !f.transferEncoding)
         && (hs.TransferEncoding? ==> !f.contentLength)
         && (hs.TokenChunked? ==> f.transferEncoding)
       case LengthPhase => hs.ContentLength? && !f.contentLength && !f.transferEncoding
       case CodingPhase => f.transferEncoding && !f.chunked && length == 0
       case ChunkPhase => f.chunked
       case ChunkDataPhase => f.chunked && length > 0
       case BodyPhase => f.contentLength && length > 0
       case EofPhase => false
       case OtherPhase => true
  }

  /** The framing invariant. */
  predicate Framed(s: Core) {
    FramedIn(PhaseOf(s.st), s.hs, s.flags, s.length)
  }

  predicate FramedAs(s: Core, p: Phase) {
    FramedIn(p, s.hs, s.flags, s.length)
  }

  lemma FailKeepsFramed(s: Core, p: Phase, code: Errno)
    requires FramedAs(s, p)
    ensures Framed(Fail(s, code))
  {
  }

  lemma OtherwiseFramed(p: Phase, hs: HeaderKind, f: Flags, length: nat)
    requires FramedIn(p, hs, f, length)
    ensures FramedIn(OtherPhase, hs, f, length)
  {
  }

  lemma QuietMoveKeepsFramed(s: Core)
    requires s.st.OnReset? || s.st.OnBegin? || s.st.FieldDone? || s.st.ValueDone? || s.st.HeadersDone?
    requires Framed(s)
    ensures Framed(Move(s))
  {
    hide UpgradeWanted;
    match s.st
    case OnReset =>
    case OnBegin =>
    case FieldDone =>
    case ValueDone =>
    case HeadersDone =>
  }

  lemma FieldKnownKeepsFramed(s: Core)
    requires s.st.FieldKnown? && Framed(s)
    ensures Framed(Move(s))
  {
    if s.hs == ContentLength && s.flags.transferEncoding {
    } else if s.hs == TransferEncoding && s.flags.contentLength {
    }
  }

  lemma ChunkMoveKeepsFramed(s: Core)
    requires (s.st.ChunkDone? || s.st.TrailersDone? || s.st.OnChunkHeader?) && Framed(s)
    ensures Framed(Move(s))
  {
    hide FramedIn;
    OtherwiseFramed(PhaseOf(s.st), s.hs, s.flags, s.length);
    match s.st
    case ChunkDone =>
    case TrailersDone =>
    case OnChunkHeader =>
  }

  lemma ChunkSizeMoveKeepsFramed(s: Core)
    requires (s.st.ChunkClear? || s.st.ChunkKind?) && Framed(s)
    ensures Framed(Move(s))
  {
    if s.st.ChunkKind? && s.length == 0 {
    }
  }

  lemma CompleteKeepsFramed(s: Core)
    requires (s.st.NoBodyComplete? || s.st.UpgradeComplete? || s.st.BodyComplete?) && Framed(s)
    ensures Framed(Move(s))
  {
    hide FramedIn;
    OtherwiseFramed(PhaseOf(s.st), s.hs, s.flags, s.length);
    match s.st
    case NoBodyComplete =>
    case UpgradeComplete =>
    case BodyComplete =>
  }

  lemma EndMoveKeepsFramed(s: Core)
    requires (s.st.CheckUpgrade? || s.st.GoUpgrade? || s.st.GoFail?) && Framed(s)
    ensures Framed(Move(s))
  {
    hide FramedIn;
    OtherwiseFramed(PhaseOf(s.st), s.hs, s.flags, s.length);
    match s.st
    case CheckUpgrade =>
    case GoUpgrade =>
    case GoFail(_) =>
  }

  lemma AfterMessageKeepsFramed(s: Core)
    requires s.st.AfterMessage? && Framed(s)
    ensures Framed(Move(s))
  {
    hide ShouldKeepAlive;
    if ShouldKeepAlive(Request, s.flags, false, s.major, s.minor) {
    }
  }

  /** A request never gets a body that runs to the end of the connection. */
  lemma RequestBodiesAreFramed(f: Flags, skipBody: bool, upgrade: bool, connect: bool, length: nat)
    ensures AfterHeadersComplete(Request, f, skipBody, upgrade, connect, length) in {0, 1, 2, 3, 5}
    ensures AfterHeadersComplete(Request, f, skipBody, upgrade, connect, length) == 2 ==> f.chunked
    ensures AfterHeadersComplete(Request, f, skipBody, upgrade, connect, length) == 3 ==> f.contentLength && length > 0
  {
  }

  /** The body of a response, in the order of section 6.3 of RFC 9112 and with the code's numbers:
      informational statuses above 103 are the exception, since only a response without lengths
      and codings is bodiless there. */
  lemma ResponseBodies(status: nat, f: Flags, skipBody: bool, length: nat)
    ensures var n, bare := AfterHeadersComplete(Response(status), f, skipBody, false, false, length),
        skipBody || status == 204 || status == 304;
      && (status == 101 ==> n == 1)
      && (status != 101 && (bare || status in {100, 102, 103}) ==> n == 0)
      && (!bare && !(100 <= status <= 103) ==>
           n == if f.chunked then 2 else if f.transferEncoding then 4
                else if f.contentLength then (if length == 0 then 0 else 3)
                else if 104 <= status < 200 then 0 else 4)
    ensures forall connect, kind ::
      (var n := AfterHeadersComplete(kind, f, skipBody, true, connect, length);
       n == if connect || skipBody || (!f.chunked && length == 0) then 1
            else AfterHeadersComplete(kind, f, skipBody, false, connect, length))
  {
  }

  /** The two functions about the end of the connection agree except on informational statuses
      above 103 with a coding that is not chunked: there the body is read to the end, and yet the
      connection counts as persistent. */
  lemma BodiesToTheEnd(status: nat, f: Flags, skipBody: bool, connect: bool, length: nat)
    ensures AfterHeadersComplete(Response(status), f, skipBody, false, connect, length) == 4 <==>
      || MessageNeedsEof(Response(status), f, skipBody)
      || (104 <= status < 200 && !skipBody && f.transferEncoding && !f.chunked)
    ensures MessageNeedsEof(Response(status), f, skipBody) ==>
      !ShouldKeepAlive(Response(status), f, skipBody, 1, 1)
  {
  }

  lemma AfterHeadersKeepsFramed(s: Core)
    requires s.st.AfterHeaders? && Framed(s)
    ensures Framed(Move(s))
  {
    hide FramedIn, Move;
    FramedBodies(s.hs, s.flags, s.length);
    AfterHeadersMove(s);
  }

  lemma AfterHeadersMove(s: Core)
    requires s.st.AfterHeaders?
    ensures var r := Move(s);
      && r == s.(st := r.st)
      && (if r.st.ChunkClear? then s.flags.chunked
          else if r.st.BodyStart? then s.flags.contentLength && s.length > 0
          else PhaseOf(r.st).OtherPhase?)
  {
    hide AfterHeadersComplete;
    RequestBodiesAreFramed(s.flags, false, s.upgrade, s.connect, s.length);
  }

  lemma FramedBodies(hs: HeaderKind, f: Flags, length: nat)
    requires FramedIn(OtherPhase, hs, f, length)
    ensures f.chunked ==> FramedIn(ChunkPhase, hs, f, length)
    ensures f.contentLength && length > 0 ==> FramedIn(BodyPhase, hs, f, length)
  {
  }

  lemma MoveKeepsFramed(s: Core)
    requires NeedsNoByte(s.st) && Framed(s)
    ensures Framed(Move(s))
  {
    hide Move, Framed;
    if s.st.AfterHeaders? {
      AfterHeadersKeepsFramed(s);
    } else if s.st.AfterMessage? {
      AfterMessageKeepsFramed(s);
    } else if s.st.FieldKnown? {
      FieldKnownKeepsFramed(s);
    } else if s.st.OnReset? || s.st.OnBegin? || s.st.FieldDone? || s.st.ValueDone? || s.st.HeadersDone? {
      QuietMoveKeepsFramed(s);
    } else if s.st.ChunkDone? || s.st.TrailersDone? || s.st.OnChunkHeader? {
      ChunkMoveKeepsFramed(s);
    } else if s.st.ChunkClear? || s.st.ChunkKind? {
      ChunkSizeMoveKeepsFramed(s);
    } else if s.st.NoBodyComplete? || s.st.UpgradeComplete? || s.st.BodyComplete? {
      CompleteKeepsFramed(s);
    } else {
      EndMoveKeepsFramed(s);
    }
  }

  lemma {:induction false} SettleKeepsFramed(s: Core)
    requires Framed(s)
    ensures Framed(Settle(s))
    decreases Pending(s.st)
  {
    hide Framed, Move;
    if NeedsNoByte(s.st) {
      MovesEnd(s);
      MoveKeepsFramed(s);
      SettleKeepsFramed(Move(s));
    }
  }

  lemma MulAddBound(n: nat, base: nat, d: nat)
    requires (base == 10 || base == 16) && n <= UINT64_MAX
    ensures MulAdd(n, base, d) <= UINT64_MAX && AfterOverflow(n, base) <= UINT64_MAX
  {
  }

  /* Header names. */

  lemma NameEndKeepsFramed(s: Core, b: byte)
    requires FramedAs(s, NameRead)
    ensures Framed(InFieldOtherwise(s, b))
  {
  }

  lemma NameReadKeepsFramed(s: Core, b: byte)
    requires FramedAs(s, NameRead)
    ensures Framed(InFieldGeneral(s, b))
  {
    hide IsToken, InFieldOtherwise;
    NameEndKeepsFramed(s, b);
  }

  lemma GeneralName(s: Core)
    requires FramedAs(s, InName) || FramedAs(s, NameRead)
    ensures FramedAs(s.(hs := General), NameRead)
  {
  }

  lemma ColonKeepsFramed(s: Core, b: byte)
    requires FramedAs(s, NameRead)
    ensures Framed(InFieldColon(s, b))
  {
    hide InFieldGeneral, FramedIn;
    FailKeepsFramed(s, NameRead, HPE_INVALID_HEADER_TOKEN);
    GeneralName(s);
    NameReadKeepsFramed(s.(hs := General), b);
  }

  lemma WordKeepsFramed(s: Core, w: Word, b: byte)
    requires FramedAs(s, InName)
    ensures Framed(InFieldWord(s, w, b))
  {
    hide LowerByte, Letters, InFieldGeneral, WordField;
    NameReadKeepsFramed(s.(index := 0, hs := General), b);
    WordFieldKeepsFramed(Into(s.(index := 0), FieldSpan, b, Field), w);
  }

  lemma WordFieldKeepsFramed(s: Core, w: Word)
    requires FramedAs(s, InName)
    ensures Framed(WordField(s, w))
  {
  }

  lemma LetterKeepsFramed(s: Core, b: byte)
    requires FramedAs(s, InName)
    ensures Framed(InField(s, b)) && Framed(InFieldCo(s, b))
  {
    hide LowerByte, InFieldGeneral;
    NameReadKeepsFramed(s.(hs := General), b);
    var c := LowerByte(b);
    if c == 99 {
    } else if c == 110 {
    } else if c == 112 {
    } else if c == 116 {
    } else if c == 117 {
    }
  }

  lemma FieldStartKeepsFramed(s: Core, b: byte)
    requires FramedAs(s, InName)
    ensures Framed(InFieldStart(s, b))
  {
    hide InField, FramedIn;
    FailKeepsFramed(s, InName, HPE_INVALID_HEADER_TOKEN);
    LetterKeepsFramed(s, b);
  }

  /* Header values. */

  lemma ValueKeepsFramed(s: Core, b: byte)
    requires FramedAs(s, ValuePhase)
    ensures Framed(InValueEnd(s, b)) && Framed(InValue(s, b))
  {
    hide IsFieldValue;
  }

  lemma TokenKeepsFramed(s: Core, b: byte)
    requires FramedAs(s, ValuePhase)
    ensures Framed(InConnToken(s, b))
  {
    hide IsFieldValue, InValueEnd;
    ValueKeepsFramed(s, b);
  }

  lemma ConnKeepsFramed(s: Core, b: byte)
    requires FramedAs(s, ValuePhase)
    ensures Framed(InConn(s, b))
  {
    hide InConnToken;
    var c := LowerByte(b);
    if IsBlank(b) {
    } else if c == 99 {
    } else if c == 107 {
    } else if c == 117 {
    } else {
      TokenKeepsFramed(s, b);
    }
  }

  lemma ConnWordKeepsFramed(s: Core, w: Word, b: byte)
    requires FramedAs(s, ValuePhase)
    ensures Framed(InConnWord(s, w, b))
  {
    hide LowerByte, Letters, InConnToken, WordToken;
    if s.index < |Letters(w)| && LowerByte(b) == Letters(w)[s.index] {
      WordTokenIsToken(w);
      if s.index + 1 == |Letters(w)| {
      }
    } else {
      TokenKeepsFramed(s.(index := 0), b);
    }
  }

  lemma WordTokenIsToken(w: Word)
    ensures WordToken(w).TokenClose? || WordToken(w).TokenKeepAlive? || WordToken(w).TokenUpgrade?
  {
  }

  lemma ApplyTokenKeepsFramed(s: Core)
    requires FramedAs(s, ValuePhase)
    ensures FramedAs(ApplyToken(s), ValuePhase)
  {
    match s.hs
    case TokenKeepAlive =>
    case TokenClose =>
    case TokenUpgrade =>
    case TokenChunked =>
    case _ =>
  }

  lemma ConnWsKeepsFramed(s: Core, b: byte)
    requires FramedAs(s, ValuePhase)
    ensures Framed(InConnWs(s, b))
  {
    hide ApplyToken, InConnToken, InValueEnd;
    ApplyTokenKeepsFramed(s);
    ValueKeepsFramed(s, b);
    TokenKeepsFramed(s.(hs := General), b);
  }

  lemma LengthWsKeepsFramed(s: Core, b: byte)
    requires FramedAs(s, LengthPhase)
    ensures Framed(InLengthWs(s, b))
  {
    hide InValueEnd, FramedIn;
    LengthAnnounced(s);
    FailKeepsFramed(s, LengthPhase, HPE_INVALID_CONTENT_LENGTH);
    ValueKeepsFramed(s.(flags := s.flags.(contentLength := true)), b);
  }

  lemma LengthAnnounced(s: Core)
    requires FramedAs(s, LengthPhase)
    ensures FramedAs(s.(flags := s.flags.(contentLength := true)), ValuePhase)
  {
  }

  lemma LengthKeepsFramed(s: Core, b: byte)
    requires FramedAs(s, LengthPhase)
    ensures Framed(InLength(s, b))
  {
    hide InLengthWs, MulAdd, AfterOverflow;
    LengthWsKeepsFramed(s, b);
    if IsDigit(b) {
      MulAddBound(s.length, 10, b - 48);
    }
  }

  lemma TeTokenKeepsFramed(s: Core, b: byte)
    requires FramedAs(s, CodingPhase)
    ensures Framed(InTeToken(s, b))
  {
    hide InValue, IsFieldValue;
    ValueKeepsFramed(s.(hs := General), b);
  }

  lemma CodingKeepsFramed(s: Core, b: byte)
    requires FramedAs(s, CodingPhase)
    ensures Framed(InTeChunked(s, b)) && Framed(InTeOws(s, b))
  {
    hide InTeToken, OrBit5, Letters;
    TeTokenKeepsFramed(s.(index := 0), b);
  }

  lemma LastCodingKeepsFramed(s: Core, b: byte)
    requires FramedAs(s, CodingPhase)
    ensures Framed(InTeLast(s, b))
  {
    hide InTeToken, InValueEnd, FramedIn;
    FailKeepsFramed(s, CodingPhase, HPE_INVALID_TRANSFER_ENCODING);
    CodingIsValue(s);
    TeTokenKeepsFramed(s, b);
    ValueKeepsFramed(s.(hs := TokenChunked), b);
  }

  lemma CodingIsValue(s: Core)
    requires FramedAs(s, CodingPhase)
    ensures FramedAs(s.(hs := TokenChunked), ValuePhase)
  {
  }

  lemma ValueStartKeepsFramed(s: Core, b: byte)
    requires FramedAs(s, ValuePhase)
    ensures Framed(InValueStart(s, b))
  {
    hide InConn, InLength, InTeChunked, InValue, FramedIn;
    ValuesFramed(s);
    match s.hs
    case Connection => ConnKeepsFramed(s, b);
    case ContentLength =>
      if s.flags.contentLength {
        FailKeepsFramed(s, ValuePhase, HPE_UNEXPECTED_CONTENT_LENGTH);
      } else {
        LengthKeepsFramed(s, b);
      }
    case TransferEncoding =>
      if s.flags.chunked {
        FailKeepsFramed(s, ValuePhase, HPE_INVALID_TRANSFER_ENCODING);
      } else {
        CodingKeepsFramed(s.(flags := s.flags.(transferEncoding := true, chunked := false)), b);
      }
    case Upgrade => ValueKeepsFramed(s.(flags := s.flags.(upgrade := true), hs := General), b);
    case _ => ValueKeepsFramed(s, b);
  }

  lemma ValuesFramed(s: Core)
    requires FramedAs(s, ValuePhase)
    ensures s.hs.ContentLength? && !s.flags.contentLength ==> FramedAs(s, LengthPhase)
    ensures s.hs.TransferEncoding? && !s.flags.chunked ==>
      FramedAs(s.(flags := s.flags.(transferEncoding := true, chunked := false)), CodingPhase)
    ensures FramedAs(s.(flags := s.flags.(upgrade := true), hs := General), ValuePhase)
  {
  }

  lemma NextLineKeepsFramed(s: Core, b: byte)
    requires FramedAs(s, ValuePhase)
    ensures Framed(InFieldStart(Note(ApplyToken(s), ValueComplete), b))
  {
    hide InFieldStart, ApplyToken;
    ApplyTokenKeepsFramed(s);
    FieldStartKeepsFramed(Note(ApplyToken(s), ValueComplete), b);
  }

  lemma ValueLwsKeepsFramed(s: Core, b: byte)
    requires FramedAs(s, ValuePhase)
    ensures Framed(InValueLws(s, b)) && Framed(InDiscardLws(s, b))
  {
    hide InFieldStart, ApplyToken, FramedIn;
    FailKeepsFramed(s, ValuePhase, HPE_INVALID_HEADER_TOKEN);
    FailKeepsFramed(s, ValuePhase, HPE_INVALID_CONTENT_LENGTH);
    NextLineKeepsFramed(s, b);
  }

  lemma DiscardWsKeepsFramed(s: Core, b: byte)
    requires FramedAs(s, ValuePhase)
    ensures Framed(InDiscardWs(s, b))
  {
    hide InValueStart;
    ValueStartKeepsFramed(s, b);
  }

  lemma ValueStepKeepsFramed(g: Grammar, s: Core, b: byte)
    requires Framed(s) && PhaseOf(s.st).ValuePhase? && !s.st.DiscardWsLf? && !s.st.ValueLf?
    ensures Framed(Step(g, s, b))
  {
    hide InDiscardWs, InDiscardLws, InValueStart, InValue, InConn, InConnWord, InConnWs, InConnToken, InValueEnd, InValueLws;
    if s.st.Conn? {
      ConnKeepsFramed(s, b);
    } else if s.st.ConnWord? {
      ConnWordKeepsFramed(s, s.st.word, b);
    } else if s.st.ConnWs? {
      ConnWsKeepsFramed(s, b);
    } else if s.st.ValueStart? {
      ValueStartKeepsFramed(s, b);
    } else if s.st.ConnToken? {
      TokenKeepsFramed(s, b);
    } else if s.st.Value? || s.st.ValueEnd? {
      ValueKeepsFramed(s, b);
    } else if s.st.DiscardWs? {
      DiscardWsKeepsFramed(s, b);
    } else if !s.st.ValueDone? {
      ValueLwsKeepsFramed(s, b);
    }
  }

  /* Chunks, bodies and lines. */

  lemma ChunkSizeKeepsFramed(s: Core, b: byte)
    requires FramedAs(s, ChunkPhase)
    ensures Framed(InChunkSizeEnd(s, b)) && (IsHex(b) ==> Framed(ChunkSizeDigit(s, b)))
  {
    hide MulAdd, AfterOverflow, HexValue;
    if IsHex(b) {
      MulAddBound(s.length, 16, HexValue(b));
    }
  }

  lemma BodyKeepsFramed(s: Core, b: byte)
    requires FramedAs(s, BodyPhase)
    ensures Framed(InBody(s, b, Body, BodyComplete))
  {
  }

  lemma ChunkDataKeepsFramed(s: Core, b: byte)
    requires FramedAs(s, ChunkDataPhase)
    ensures Framed(InBody(s, b, ChunkData, ChunkDataCr))
  {
  }

  lemma LineKeepsFramed(g: Grammar, s: Core, b: byte)
    requires s.st.Line? && Framed(s)
    ensures Framed(InLine(g, s, b))
  {
    hide FramedIn;
    OtherwiseFramed(InFront, s.hs, s.flags, s.length);
  }

  lemma ExtKeepsFramed(g: Grammar, s: Core, b: byte)
    requires s.st.Ext? && Framed(s)
    ensures Framed(InExt(g, s, b))
  {
    hide FramedIn;
    OtherwiseFramed(ChunkPhase, s.hs, s.flags, s.length);
  }

  lemma StartKeepsFramed(g: Grammar, s: Core, b: byte)
    requires s.st.Start? && Framed(s)
    ensures Framed(InStart(g, s, b))
  {
    hide InLine, Settle;
    var t := s.(st := if s.seen then OnReset else OnBegin);
    SettleKeepsFramed(t);
    BeginSettles(t);
    LineKeepsFramed(g, Settle(t), b);
  }

  /** A state that wants one particular byte. */
  lemma ExpectKeepsFramed(s: Core, p: Phase, b: byte, want: byte, st: St, code: Errno)
    requires FramedAs(s, p) && FramedAs(s, PhaseOf(st))
    ensures Framed(Expect(s, b, want, st, code))
  {
    hide FramedIn;
    FailKeepsFramed(s, p, code);
  }

  lemma EndOfHeadersIsFramed(s: Core)
    requires FramedAs(s, InName)
    ensures FramedAs(s, PhaseOf(if s.flags.trailing then TrailersDone else HeadersDone))
  {
  }

  /* A byte, by the part of the message it belongs to. */

  lemma FrontStepKeepsFramed(g: Grammar, s: Core, b: byte)
    requires Framed(s) && (s.st.Start? || s.st.Line? || s.st.HeadersStart?)
    ensures Framed(Step(g, s, b))
  {
    hide InStart, InLine, InFieldStart;
    if s.st.Start? {
      StartKeepsFramed(g, s, b);
    } else if s.st.Line? {
      LineKeepsFramed(g, s, b);
    } else {
      FieldStartKeepsFramed(s, b);
    }
  }

  lemma NameStepKeepsFramed(g: Grammar, s: Core, b: byte)
    requires Framed(s) && PhaseOf(s.st).InName?
    ensures Framed(Step(g, s, b))
  {
    hide InFieldStart, InField, InFieldWord, InFieldCo, FramedIn, Expect;
    if s.st.FieldWord? {
      WordKeepsFramed(s, s.st.word, b);
    } else if s.st.HeadersLf? {
      EndOfHeadersIsFramed(s);
      ExpectKeepsFramed(s, InName, b, LF, if s.flags.trailing then TrailersDone else HeadersDone, HPE_STRICT);
    } else {
      LetterKeepsFramed(s, b);
      FieldStartKeepsFramed(s, b);
    }
  }

  lemma NameReadStepKeepsFramed(g: Grammar, s: Core, b: byte)
    requires Framed(s) && (s.st.FieldColon? || s.st.FieldGeneral? || s.st.FieldOtherwise?)
    ensures Framed(Step(g, s, b))
  {
    hide InFieldColon, InFieldGeneral, InFieldOtherwise, FramedIn;
    NameEndKeepsFramed(s, b);
    NameReadKeepsFramed(s, b);
    ColonKeepsFramed(s, b);
  }

  lemma LengthStepKeepsFramed(g: Grammar, s: Core, b: byte)
    requires Framed(s) && PhaseOf(s.st).LengthPhase?
    ensures Framed(Step(g, s, b))
  {
    hide InLength, InLengthWs, FramedIn;
    LengthWsKeepsFramed(s, b);
    LengthKeepsFramed(s, b);
  }

  lemma CodingStepKeepsFramed(g: Grammar, s: Core, b: byte)
    requires Framed(s) && PhaseOf(s.st).CodingPhase?
    ensures Framed(Step(g, s, b))
  {
    hide InTeChunked, InTeLast, InTeToken, InTeOws, FramedIn;
    TeTokenKeepsFramed(s, b);
    CodingKeepsFramed(s, b);
    LastCodingKeepsFramed(s, b);
  }

  lemma ChunkStepKeepsFramed(g: Grammar, s: Core, b: byte)
    requires Framed(s) && (s.st.ChunkDigit? || s.st.ChunkSize? || s.st.ChunkSizeEnd? || s.st.Ext? || s.st.ChunkStart? || s.st.ChunkData?)
    ensures Framed(Step(g, s, b))
  {
    hide InExt, ChunkSizeDigit, InChunkSizeEnd, InBody, FramedIn;
    if s.st.Ext? {
      ExtKeepsFramed(g, s, b);
    } else if s.st.ChunkStart? || s.st.ChunkData? {
      ChunkDataKeepsFramed(s, b);
    } else {
      ChunkSizeKeepsFramed(s, b);
      FailKeepsFramed(s, ChunkPhase, HPE_INVALID_CHUNK_SIZE);
    }
  }

  lemma LineEndStepKeepsFramed(g: Grammar, s: Core, b: byte)
    requires Framed(s) && (s.st.ChunkSizeLf? || s.st.ChunkDataCr? || s.st.ChunkDataLf?)
    ensures Framed(Step(g, s, b))
  {
    hide FramedIn, Expect;
    if s.st.ChunkSizeLf? {
      ExpectKeepsFramed(s, ChunkPhase, b, LF, OnChunkHeader, HPE_STRICT);
    } else if s.st.ChunkDataLf? {
      ExpectKeepsFramed(s, ChunkPhase, b, LF, ChunkDone, HPE_STRICT);
    } else {
      FailKeepsFramed(s, ChunkPhase, HPE_CR_EXPECTED);
      ExpectKeepsFramed(s, ChunkPhase, b, CR, ChunkDataLf, HPE_STRICT);
    }
  }

  lemma ValueEndStepKeepsFramed(g: Grammar, s: Core, b: byte)
    requires Framed(s) && (s.st.DiscardWsLf? || s.st.ValueLf?)
    ensures Framed(Step(g, s, b))
  {
    hide FramedIn, Expect;
    if s.st.DiscardWsLf? {
      ExpectKeepsFramed(s, ValuePhase, b, LF, DiscardLws, HPE_STRICT);
    } else {
      ExpectKeepsFramed(s, ValuePhase, b, LF, ValueLws, HPE_LF_EXPECTED);
    }
  }

  lemma BodyStepKeepsFramed(g: Grammar, s: Core, b: byte)
    requires Framed(s) && (s.st.BodyStart? || s.st.Body? || s.st.Closed?)
    ensures Framed(Step(g, s, b))
  {
    hide FramedIn, InBody;
    if s.st.Closed? {
      FailKeepsFramed(s, OtherPhase, HPE_CLOSED_CONNECTION);
    } else {
      BodyKeepsFramed(s, b);
    }
  }

  lemma EofIsNotFramed(s: Core)
    requires s.st.EofStart? || s.st.EofBody?
    ensures !Framed(s)
  {
  }

  lemma IdleStepDoesNothing(g: Grammar, s: Core, b: byte)
    requires NeedsNoByte(s.st) || ErrorOf(s) != 0
    ensures Step(g, s, b) == s
  {
  }

  /** One byte keeps the invariant, in every state and under every grammar. */
  lemma StepKeepsFramed(g: Grammar, s: Core, b: byte)
    requires Framed(s)
    ensures Framed(Step(g, s, b))
  {
    hide Step, FramedIn;
    match s.st
    case Start => FrontStepKeepsFramed(g, s, b);
    case Line => FrontStepKeepsFramed(g, s, b);
    case HeadersStart => FrontStepKeepsFramed(g, s, b);
    case FieldStart => NameStepKeepsFramed(g, s, b);
    case Field => NameStepKeepsFramed(g, s, b);
    case FieldWord(_) => NameStepKeepsFramed(g, s, b);
    case FieldCo => NameStepKeepsFramed(g, s, b);
    case HeadersLf => NameStepKeepsFramed(g, s, b);
    case FieldColon => NameReadStepKeepsFramed(g, s, b);
    case FieldGeneral => NameReadStepKeepsFramed(g, s, b);
    case FieldOtherwise => NameReadStepKeepsFramed(g, s, b);
    case DiscardWs => ValueStepKeepsFramed(g, s, b);
    case DiscardWsLf => ValueEndStepKeepsFramed(g, s, b);
    case DiscardLws => ValueStepKeepsFramed(g, s, b);
    case ValueStart => ValueStepKeepsFramed(g, s, b);
    case Value => ValueStepKeepsFramed(g, s, b);
    case Conn => ValueStepKeepsFramed(g, s, b);
    case ConnWord(_) => ValueStepKeepsFramed(g, s, b);
    case ConnWs => ValueStepKeepsFramed(g, s, b);
    case ConnToken => ValueStepKeepsFramed(g, s, b);
    case ValueEnd => ValueStepKeepsFramed(g, s, b);
    case ValueLf => ValueEndStepKeepsFramed(g, s, b);
    case ValueLws => ValueStepKeepsFramed(g, s, b);
    case Length => LengthStepKeepsFramed(g, s, b);
    case LengthWs => LengthStepKeepsFramed(g, s, b);
    case TeChunked => CodingStepKeepsFramed(g, s, b);
    case TeLast => CodingStepKeepsFramed(g, s, b);
    case TeToken => CodingStepKeepsFramed(g, s, b);
    case TeOws => CodingStepKeepsFramed(g, s, b);
    case ChunkDigit => ChunkStepKeepsFramed(g, s, b);
    case ChunkSize => ChunkStepKeepsFramed(g, s, b);
    case ChunkSizeEnd => ChunkStepKeepsFramed(g, s, b);
    case Ext => ChunkStepKeepsFramed(g, s, b);
    case ChunkStart => ChunkStepKeepsFramed(g, s, b);
    case ChunkData => ChunkStepKeepsFramed(g, s, b);
    case ChunkSizeLf => LineEndStepKeepsFramed(g, s, b);
    case ChunkDataCr => LineEndStepKeepsFramed(g, s, b);
    case ChunkDataLf => LineEndStepKeepsFramed(g, s, b);
    case BodyStart => BodyStepKeepsFramed(g, s, b);
    case Body => BodyStepKeepsFramed(g, s, b);
    case Closed => BodyStepKeepsFramed(g, s, b);
    case EofStart => EofIsNotFramed(s);
    case EofBody => EofIsNotFramed(s);
    case _ => IdleStepDoesNothing(g, s, b);
  }

  /** Every run keeps the invariant. */
  lemma {:induction false} FeedKeepsFramed(g: Grammar, s: Core, bytes: seq<byte>)
    requires Framed(s)
    ensures Framed(Feed(g, s, bytes))
    decreases |bytes|
  {
    SettleKeepsFramed(s);
    if bytes != [] {
      StepKeepsFramed(g, Settle(s), bytes[0]);
      FeedKeepsFramed(g, Step(g, Settle(s), bytes[0]), bytes[1..]);
    }
  }

  /** Framing safety of all runs: the two framing headers are never both accepted, the length counter
      is zero wherever the digits of Content-Length may begin, a body is read only under the header
      that announced it, and the body that ends with the connection is never entered. */
  lemma FramingSafety(g: Grammar, bytes: seq<byte>)
    ensures var r := Feed(g, INITIAL, bytes);
      && !(r.flags.contentLength && r.flags.transferEncoding)
      && r.length <= UINT64_MAX
      && (r.st.DiscardWs? || r.st.ValueStart? ==> r.hs.ContentLength? && !r.flags.contentLength ==> r.length == 0)
      && (r.st.BodyStart? || r.st.Body? ==> r.flags.contentLength && !r.flags.transferEncoding && r.length > 0)
      && (r.st.ChunkStart? || r.st.ChunkData? ==> r.flags.chunked && !r.flags.contentLength && r.length > 0)
      && !r.st.EofStart? && !r.st.EofBody?
  {
    hide Feed;
    FeedKeepsFramed(g, INITIAL, bytes);
  }
}
