/** From bytes to the header map: what the parser tells of a header section, whatever the names and
    values, and what header assembly makes of it (section 5 of RFC 9112). */
module HttpHeaders {
  import opened Bytes
  import opened HttpSpec
  import opened HttpBodies
  import opened HttpSteps
  import opened HttpMessages
  import StrMap
  import Headers

  /* ---- header lines --------------------------------------------------------------------------------- */

  /** A name, the blanks after its colon, and a value that does not begin with a blank. */
  datatype Line = Line(name: seq<byte>, before: seq<byte>, value: seq<byte>)

  predicate IsName(d: seq<byte>) {
    d != [] && forall i :: 0 <= i < |d| ==> IsToken(d[i])
  }

  predicate IsText(d: seq<byte>) {
    forall i :: 0 <= i < |d| ==> IsFieldValue(d[i])
  }

  predicate IsLine(l: Line) {
    IsName(l.name) && AllBlank(l.before) && IsText(l.value) && (l.value != [] ==> !IsBlank(l.value[0]))
  }

  predicate AreLines(ls: seq<Line>) {
    forall i :: 0 <= i < |ls| ==> IsLine(ls[i])
  }

  function LineBytes(l: Line): seq<byte> {
    l.name + ([COLON] + (l.before + (l.value + CRLF)))
  }

  /** The header section with the empty line that ends it. */
  function SectionBytes(ls: seq<Line>): seq<byte> {
    if ls == [] then CRLF else LineBytes(ls[0]) + SectionBytes(ls[1..])
  }

  function LineEvents(l: Line): seq<Event> {
    Spans(FieldSpan, l.name) + [FieldComplete] + Spans(ValueSpan, l.value) + [ValueComplete]
  }

  function SectionEvents(ls: seq<Line>): seq<Event> {
    if ls == [] then [] else LineEvents(ls[0]) + SectionEvents(ls[1..])
  }

  /* ---- names ------------------------------------------------------------------------------------------ */

  predicate NameState(st: St) {
    st.Field? || st.FieldWord? || st.FieldCo? || st.FieldColon? || st.FieldGeneral?
  }

  /** A step that takes b into the span of the given kind. */
  predicate Takes(s: Core, kind: SpanKind, b: byte, r: Core) {
    r.log == s.log + [SpanByte(kind, b)] && r.flags.trailing == s.flags.trailing
  }

  lemma GeneralTakes(s: Core, b: byte)
    requires IsToken(b)
    ensures Takes(s, FieldSpan, b, InFieldGeneral(s, b)) && NameState(InFieldGeneral(s, b).st)
  {
  }

  lemma WordFieldIsName(s: Core, w: Word)
    ensures NameState(WordField(s, w).st) && WordField(s, w).log == s.log && WordField(s, w).flags == s.flags
  {
  }

  lemma WordTakes(s: Core, w: Word, b: byte)
    requires IsToken(b)
    ensures Takes(s, FieldSpan, b, InFieldWord(s, w, b)) && NameState(InFieldWord(s, w, b).st)
  {
    hide InFieldGeneral, Letters, LowerByte, IsToken, WordField;
    GeneralTakes(s.(index := 0, hs := General), b);
    WordFieldIsName(Into(s.(index := 0), FieldSpan, b, Field), w);
  }

  lemma LetterTakes(s: Core, b: byte)
    requires IsToken(b)
    ensures Takes(s, FieldSpan, b, InField(s, b)) && NameState(InField(s, b).st)
    ensures Takes(s, FieldSpan, b, InFieldCo(s, b)) && NameState(InFieldCo(s, b).st)
  {
    hide InFieldGeneral, LowerByte, IsToken;
    GeneralTakes(s.(hs := General), b);
  }

  lemma TokenIsNoMark(b: byte)
    requires IsToken(b)
    ensures b !in {LF, CR, SP, HT, COLON, NUL}
  {
  }

  lemma NameByte(g: Grammar, s: Core, b: byte)
    requires NameState(s.st) && IsToken(b)
    ensures Takes(s, FieldSpan, b, Step(g, s, b)) && NameState(Step(g, s, b).st)
  {
    hide InFieldGeneral, InFieldWord, InField, InFieldCo, IsToken, NameState;
    TokenIsNoMark(b);
    GeneralTakes(s, b);
    GeneralTakes(s.(hs := General), b);
    LetterTakes(s, b);
    if s.st.FieldWord? {
      WordTakes(s, s.st.word, b);
    }
    NameStates(s.st);
  }

  lemma NameStates(st: St)
    requires NameState(st)
    ensures st.Field? || st.FieldWord? || st.FieldCo? || st.FieldColon? || st.FieldGeneral?
    ensures !NeedsNoByte(st)
  {
  }

  /** The colon ends a name in whatever state it was read. */
  lemma NameColon(g: Grammar, s: Core)
    requires NameState(s.st)
    ensures var r := Step(g, s, COLON); r.st.FieldDone? && r.log == s.log && r.flags == s.flags
  {
    hide Letters;
    NameStates(s.st);
    if s.st.FieldWord? {
      ColonIsNoLetter(s.st.word);
    }
  }

  lemma ColonIsNoLetter(w: Word)
    ensures forall i :: 0 <= i < |Letters(w)| ==> Letters(w)[i] != LowerByte(COLON)
  {
  }

  lemma {:induction false} NameBytes(g: Grammar, s: Core, d: seq<byte>)
    requires NameState(s.st) && forall i :: 0 <= i < |d| ==> IsToken(d[i])
    ensures var r := Feed(g, s, d);
      NameState(r.st) && r.log == s.log + Spans(FieldSpan, d) && r.flags.trailing == s.flags.trailing
    decreases |d|
  {
    hide Feed, Step, Settle, NameState, IsToken;
    NameStates(s.st);
    if d == [] {
      FeedNothing(g, s);
      SettledAlready(s);
      assert s.log + Spans(FieldSpan, d) == s.log;
    } else {
      NameByte(g, s, d[0]);
      ByteFirst(g, s, d);
      var t := Step(g, s, d[0]);
      NameBytes(g, t, d[1..]);
      assert t.log + Spans(FieldSpan, d[1..]) == s.log + Spans(FieldSpan, d);
    }
  }

  /** The first byte of a name, where a header may begin. */
  lemma FirstByte(g: Grammar, s: Core, b: byte)
    requires AtHeader(s.st) && IsToken(b)
    ensures Takes(s, FieldSpan, b, Step(g, s, b)) && NameState(Step(g, s, b).st)
  {
    hide InField, IsToken, NameState, Takes;
    TokenIsNoMark(b);
    LetterTakes(s, b);
  }

  lemma NameLine(g: Grammar, s: Core, name: seq<byte>)
    requires AtHeader(s.st) && IsName(name)
    ensures var r := Feed(g, s, name);
      NameState(r.st) && r.log == s.log + Spans(FieldSpan, name) && r.flags.trailing == s.flags.trailing
  {
    hide Feed, Step, Settle, NameState, IsToken;
    FirstByte(g, s, name[0]);
    ByteFirst(g, s, name);
    var t := Step(g, s, name[0]);
    NameBytes(g, t, name[1..]);
    assert t.log + Spans(FieldSpan, name[1..]) == s.log + Spans(FieldSpan, name);
  }

  /* ---- values ------------------------------------------------------------------------------------------ */

  predicate ValueState(st: St) {
    || st.Value? || st.Conn? || st.ConnWord? || st.ConnWs? || st.ConnToken? || st.TeChunked? || st.TeLast? || st.TeToken? || st.TeOws?
    || st.Length? || st.LengthWs?
  }

  /** A step on a byte of a value: it is taken, or refused, or taken and refused. */
  predicate Reads(s: Core, b: byte, r: Core) {
    if r.st.Failed? then r.log <= s.log + [SpanByte(ValueSpan, b)] else Takes(s, ValueSpan, b, r) && ValueState(r.st)
  }

  lemma IntoReads(s: Core, t: Core, b: byte, st: St)
    requires t.log == s.log && t.flags.trailing == s.flags.trailing && ValueState(st)
    ensures Reads(s, b, Into(t, ValueSpan, b, st))
  {
  }

  lemma FailReads(s: Core, b: byte, code: Errno)
    ensures Reads(s, b, Fail(s, code))
  {
  }

  lemma TextReads(s: Core, t: Core, b: byte)
    requires IsFieldValue(b) && t.log == s.log && t.flags.trailing == s.flags.trailing
    ensures Reads(s, b, InValue(t, b)) && Reads(s, b, InConnToken(t, b)) && Reads(s, b, InTeToken(t, b))
  {
    hide Reads, IsFieldValue, InValueEnd;
    IntoReads(s, t, b, Value);
    IntoReads(s, t, b, Conn);
    IntoReads(s, t, b, ConnToken);
    IntoReads(s, t, b, TeOws);
    IntoReads(s, t, b, TeToken);
  }

  lemma TextIsNoMark(b: byte)
    requires IsFieldValue(b)
    ensures b !in {LF, CR, NUL}
  {
  }

  lemma TeChunkedReads(s: Core, t: Core, b: byte)
    requires IsFieldValue(b) && t.log == s.log && t.flags.trailing == s.flags.trailing
    ensures Reads(s, b, InTeChunked(t, b)) && Reads(s, b, InTeOws(t, b))
  {
    hide Reads, IsFieldValue, InTeToken, Letters, OrBit5;
    TextReads(s, t.(index := 0), b);
    IntoReads(s, t.(index := 0), b, TeLast);
    IntoReads(s, t.(index := t.index + 1), b, TeChunked);
    IntoReads(s, t, b, TeOws);
  }

  lemma TeLastReads(s: Core, b: byte)
    requires IsFieldValue(b)
    ensures Reads(s, b, InTeLast(s, b))
  {
    hide Reads, IsFieldValue, InTeToken, InValueEnd;
    TextIsNoMark(b);
    TextReads(s, s, b);
    IntoReads(s, s, b, TeLast);
    FailReads(s, b, HPE_INVALID_TRANSFER_ENCODING);
  }

  lemma ConnReads(s: Core, b: byte)
    requires IsFieldValue(b)
    ensures Reads(s, b, InConn(s, b))
  {
    hide Reads, IsFieldValue, InConnToken, LowerByte;
    TextReads(s, s, b);
    IntoReads(s, s, b, Conn);
    IntoReads(s, s, b, ConnWord(Lose));
    IntoReads(s, s, b, ConnWord(EepAlive));
    IntoReads(s, s, b, ConnWord(Pgrade));
  }

  lemma ConnWordReads(s: Core, w: Word, b: byte)
    requires IsFieldValue(b)
    ensures Reads(s, b, InConnWord(s, w, b))
  {
    hide Reads, IsFieldValue, InConnToken, LowerByte, Letters, WordToken;
    TextReads(s, s.(index := 0), b);
    IntoReads(s, s.(index := 0, hs := WordToken(w)), b, ConnWs);
    IntoReads(s, s.(index := s.index + 1), b, ConnWord(w));
  }

  lemma ApplyTokenKeeps(s: Core)
    ensures ApplyToken(s).log == s.log && ApplyToken(s).flags.trailing == s.flags.trailing
  {
    match s.hs
    case TokenKeepAlive =>
    case TokenClose =>
    case TokenUpgrade =>
    case TokenChunked =>
    case _ =>
  }

  lemma ConnWsReads(s: Core, b: byte)
    requires IsFieldValue(b)
    ensures Reads(s, b, InConnWs(s, b))
  {
    hide Reads, IsFieldValue, InConnToken, InValueEnd, ApplyToken;
    TextIsNoMark(b);
    TextReads(s, s.(hs := General), b);
    ApplyTokenKeeps(s);
    IntoReads(s, s, b, ConnWs);
    IntoReads(s, ApplyToken(s), b, Conn);
  }

  lemma LengthReads(s: Core, b: byte)
    requires IsFieldValue(b)
    ensures Reads(s, b, InLengthWs(s, b)) && Reads(s, b, InLength(s, b))
  {
    hide Reads, IsFieldValue, InValueEnd, MulAdd, AfterOverflow;
    TextIsNoMark(b);
    IntoReads(s, s, b, LengthWs);
    FailReads(s, b, HPE_INVALID_CONTENT_LENGTH);
    DigitReads(s, b);
  }

  lemma DigitReads(s: Core, b: byte)
    ensures forall n: nat :: Reads(s, b, Into(s, ValueSpan, b, Length).(length := n))
    ensures forall n: nat :: Reads(s, b, Into(s, ValueSpan, b, Failed(HPE_INVALID_CONTENT_LENGTH)).(length := n))
  {
  }

  lemma ValueByte(g: Grammar, s: Core, b: byte)
    requires ValueState(s.st) && IsFieldValue(b)
    ensures Reads(s, b, Step(g, s, b))
  {
    hide InValue, InConn, InConnWord, InConnWs, InConnToken, InTeChunked, InTeLast, InTeToken, InTeOws, InLength, InLengthWs;
    hide Reads, IsFieldValue;
    match s.st
    case Value => TextReads(s, s, b);
    case ConnToken => TextReads(s, s, b);
    case TeToken => TextReads(s, s, b);
    case Conn => ConnReads(s, b);
    case ConnWs => ConnWsReads(s, b);
    case ConnWord(w) => ConnWordReads(s, w, b);
    case TeChunked => TeChunkedReads(s, s, b);
    case TeOws => TeChunkedReads(s, s, b);
    case TeLast => TeLastReads(s, b);
    case Length => LengthReads(s, b);
    case LengthWs => LengthReads(s, b);
  }

  lemma ValueStartReads(s: Core, b: byte)
    requires IsFieldValue(b)
    ensures Reads(s, b, InValueStart(s, b))
  {
    hide Reads, IsFieldValue, InConn, InLength, InTeChunked, InValue;
    match s.hs
    case Connection => ConnReads(s, b);
    case ContentLength =>
      FailReads(s, b, HPE_UNEXPECTED_CONTENT_LENGTH);
      LengthReads(s, b);
    case TransferEncoding =>
      FailReads(s, b, HPE_INVALID_TRANSFER_ENCODING);
      TeChunkedReads(s, s.(flags := s.flags.(transferEncoding := true, chunked := false)), b);
    case Upgrade => TextReads(s, s.(flags := s.flags.(upgrade := true), hs := General), b);
    case _ => TextReads(s, s, b);
  }

  lemma FirstOfValue(g: Grammar, s: Core, b: byte)
    requires s.st.DiscardWs? && IsFieldValue(b) && !IsBlank(b)
    ensures Reads(s, b, Step(g, s, b))
  {
    hide Reads, IsFieldValue, InValueStart, IsBlank;
    TextIsNoMark(b);
    ValueStartReads(s, b);
  }

  /** What bytes of a value lead to. */
  predicate HasRead(s: Core, d: seq<byte>, r: Core) {
    if r.st.Failed? then r.log <= s.log + Spans(ValueSpan, d)
    else r.log == s.log + Spans(ValueSpan, d) && ValueState(r.st) && r.flags.trailing == s.flags.trailing
  }

  lemma ReadsOn(s: Core, b: byte, t: Core, d: seq<byte>, r: Core)
    requires Reads(s, b, t) && (if t.st.Failed? then r == t else HasRead(t, d, r))
    ensures HasRead(s, [b] + d, r)
  {
    SpansConcat(ValueSpan, [b], d);
    OneSpan(ValueSpan, b);
    assert s.log + Spans(ValueSpan, [b] + d) == s.log + [SpanByte(ValueSpan, b)] + Spans(ValueSpan, d);
  }

  lemma ValueStates(st: St)
    requires ValueState(st)
    ensures !NeedsNoByte(st) && !st.Failed?
  {
  }

  lemma {:induction false} ValueBytes(g: Grammar, s: Core, d: seq<byte>)
    requires ValueState(s.st) && IsText(d)
    ensures HasRead(s, d, Feed(g, s, d))
    decreases |d|
  {
    hide Feed, Step, Settle, ValueState, IsFieldValue, Reads, HasRead;
    ValueStates(s.st);
    if d == [] {
      FeedNothing(g, s);
      SettledAlready(s);
      ReadNothing(s);
    } else {
      ValueByte(g, s, d[0]);
      ByteFirst(g, s, d);
      var t := Step(g, s, d[0]);
      if t.st.Failed? {
        FailedStays(g, t, d[1..]);
      } else {
        ReadsIsValue(s, d[0], t);
        ValueBytes(g, t, d[1..]);
      }
      ReadsOn(s, d[0], t, d[1..], Feed(g, t, d[1..]));
      assert d == [d[0]] + d[1..];
    }
  }

  lemma ReadNothing(s: Core)
    requires ValueState(s.st)
    ensures HasRead(s, [], s)
  {
    assert s.log + Spans(ValueSpan, []) == s.log;
  }

  lemma ReadsIsValue(s: Core, b: byte, r: Core)
    requires Reads(s, b, r) && !r.st.Failed?
    ensures ValueState(r.st)
  {
  }

  /* ---- lines --------------------------------------------------------------------------------------------- */

  lemma ValueCr(g: Grammar, s: Core)
    requires ValueState(s.st)
    ensures var r := Step(g, s, CR); r.st.ValueLf? && r.log == s.log && r.flags.trailing == s.flags.trailing
  {
    hide Letters, MulAdd, AfterOverflow, ApplyToken;
    match s.st
    case Value =>
    case ConnToken =>
    case TeToken =>
    case Conn =>
    case ConnWs =>
    case ConnWord(w) => CrIsNoLetter(w);
    case TeChunked => CrIsNoLetter(Chunked);
    case TeOws => CrIsNoLetter(Chunked);
    case TeLast =>
    case Length =>
    case LengthWs =>
  }

  lemma CrIsNoLetter(w: Word)
    ensures forall i :: 0 <= i < |Letters(w)| ==> Letters(w)[i] != LowerByte(CR) && (w.Chunked? ==> Letters(w)[i] != OrBit5(CR))
  {
  }

  /** After a line: its value is complete once the next line begins. */
  predicate LineRead(st: St) {
    st.ValueLws? || st.DiscardLws?
  }

  lemma ValueLineEnds(g: Grammar, s: Core)
    requires ValueState(s.st)
    ensures var r := Feed(g, s, CRLF); r.st.ValueLws? && r.log == s.log && r.flags.trailing == s.flags.trailing
  {
    hide Feed, Step, Settle, ValueState;
    ValueStates(s.st);
    ValueCr(g, s);
    FeedTwo(g, s, CR, LF);
    SettledAlready(s);
    var t := Step(g, s, CR);
    SettledAlready(t);
    LineFeeds(g, t);
    SettledAlready(Step(g, t, LF));
  }

  lemma EmptyLineEnds(g: Grammar, s: Core)
    requires s.st.DiscardWs?
    ensures Feed(g, s, CRLF) == s.(st := DiscardLws)
  {
    hide Feed, Step, Settle;
    FeedTwo(g, s, CR, LF);
    SettledAlready(s);
    DiscardsCr(g, s);
    SettledAlready(s.(st := DiscardWsLf));
    LineFeeds(g, s.(st := DiscardWsLf));
    SettledAlready(s.(st := DiscardLws));
  }

  lemma DiscardsCr(g: Grammar, s: Core)
    requires s.st.DiscardWs?
    ensures Step(g, s, CR) == s.(st := DiscardWsLf)
  {
  }

  lemma LineFeeds(g: Grammar, s: Core)
    ensures s.st.ValueLf? ==> Step(g, s, LF) == s.(st := ValueLws)
    ensures s.st.DiscardWsLf? ==> Step(g, s, LF) == s.(st := DiscardLws)
    ensures s.st.HeadersLf? && !s.flags.trailing ==> Step(g, s, LF) == s.(st := HeadersDone)
  {
  }

  /** The colon: the name is complete; two framing headers that exclude each other are refused. */
  lemma ColonEndsName(g: Grammar, s: Core)
    requires NameState(s.st)
    ensures var r := Feed(g, s, [COLON]);
      (r.st.DiscardWs? || r.st.Failed?) && r.log == s.log + [FieldComplete] && r.flags.trailing == s.flags.trailing
  {
    hide Feed, Step, Settle, NameState;
    NameStates(s.st);
    NameColon(g, s);
    FeedByte(g, s, COLON);
    SettledAlready(s);
    FieldDoneSettles(Step(g, s, COLON));
  }

  lemma FieldDoneSettles(s: Core)
    requires s.st.FieldDone?
    ensures var r := Settle(s);
      (r.st.DiscardWs? || r.st.Failed?) && r.log == s.log + [FieldComplete] && r.flags == s.flags
  {
    hide Settle;
    var t := Note(s, FieldComplete).(st := FieldKnown);
    SettleMove(s);
    SettleMove(t);
    SettledAlready(Move(t));
  }

  /** One line, where a header may begin: it is refused, or told with its name and its value. */
  lemma LineParses(g: Grammar, s: Core, l: Line)
    requires AtHeader(s.st) && IsLine(l)
    ensures var r := Feed(g, s, LineBytes(l));
      if r.st.Failed? then r.log <= s.log + LineEvents(l)
      else LineRead(r.st) && r.log + [ValueComplete] == s.log + LineEvents(l) && r.flags.trailing == s.flags.trailing
  {
    hide Feed, NameState, AtHeader, IsName;
    NameLine(g, s, l.name);
    FeedConcat(g, s, l.name, [COLON] + (l.before + (l.value + CRLF)));
    var t := Feed(g, s, l.name);
    ColonEndsName(g, t);
    FeedConcat(g, t, [COLON], l.before + (l.value + CRLF));
    var u := Feed(g, t, [COLON]);
    if u.st.Failed? {
      FailedStays(g, u, l.before + (l.value + CRLF));
    } else {
      FeedConcat(g, u, l.before, l.value + CRLF);
      BlanksBefore(g, u, l.before);
      ValueParses(g, u, l.value);
      assert s.log + LineEvents(l) == u.log + Spans(ValueSpan, l.value) + [ValueComplete];
    }
  }

  lemma ValueParses(g: Grammar, s: Core, value: seq<byte>)
    requires s.st.DiscardWs? && IsText(value) && (value != [] ==> !IsBlank(value[0]))
    ensures var r := Feed(g, s, value + CRLF);
      if r.st.Failed? then r.log <= s.log + Spans(ValueSpan, value)
      else LineRead(r.st) && r.log == s.log + Spans(ValueSpan, value) && r.flags.trailing == s.flags.trailing
  {
    hide Feed, Step, Settle, ValueState, IsFieldValue, Reads, HasRead, IsBlank;
    if value == [] {
      assert value + CRLF == CRLF && s.log + Spans(ValueSpan, value) == s.log;
      EmptyLineEnds(g, s);
    } else {
      var b, rest := value[0], value[1..];
      FirstOfValue(g, s, b);
      ByteFirst(g, s, value);
      var t := Step(g, s, b);
      if t.st.Failed? {
        FailedStays(g, t, rest);
      } else {
        ReadsIsValue(s, b, t);
        ValueBytes(g, t, rest);
      }
      var u := Feed(g, s, value);
      ReadsOn(s, b, t, rest, u);
      assert value == [b] + rest;
      FeedConcat(g, s, value, CRLF);
      ValueIsRead(s, value, u);
      if u.st.Failed? {
        FailedStays(g, u, CRLF);
      } else {
        ValueLineEnds(g, u);
      }
    }
  }

  lemma ValueIsRead(s: Core, d: seq<byte>, r: Core)
    requires HasRead(s, d, r)
    ensures if r.st.Failed? then r.log <= s.log + Spans(ValueSpan, d)
            else r.log == s.log + Spans(ValueSpan, d) && ValueState(r.st) && r.flags.trailing == s.flags.trailing
  {
  }

  /* ---- sections ------------------------------------------------------------------------------------------- */

  /** What has been told, with the value that the next line completes. */
  function Shown(s: Core): seq<Event> {
    s.log + if LineRead(s.st) then [ValueComplete] else []
  }

  /** The state in which the next line is read. */
  function NextLine(s: Core): Core {
    if LineRead(s.st) then Note(ApplyToken(s), ValueComplete).(st := FieldStart) else s
  }

  lemma NextLineBegins(s: Core)
    requires AtHeader(s.st) || LineRead(s.st)
    ensures AtHeader(NextLine(s).st) && NextLine(s).log == Shown(s) && NextLine(s).flags.trailing == s.flags.trailing
  {
    hide ApplyToken;
    ApplyTokenKeeps(s);
  }

  /** The first byte of the next line; a Content-Length without a value is refused here. */
  lemma LineBegins(g: Grammar, s: Core, b: byte)
    requires (AtHeader(s.st) || LineRead(s.st)) && !IsBlank(b)
    ensures var r := Step(g, s, b); (r.st.Failed? && r.log == s.log) || r == Step(g, NextLine(s), b)
  {
    hide InFieldStart, ApplyToken, IsBlank;
    var t := Note(ApplyToken(s), ValueComplete);
    FieldStartForgets(t, FieldStart, b);
    if LineRead(s.st) {
      assert Step(g, t.(st := FieldStart), b) == InFieldStart(t.(st := FieldStart), b);
    }
  }

  lemma RestBegins(g: Grammar, s: Core, rest: seq<byte>)
    requires (AtHeader(s.st) || LineRead(s.st)) && rest != [] && !IsBlank(rest[0])
    ensures var r := Feed(g, s, rest); (r.st.Failed? && r.log == s.log) || r == Feed(g, NextLine(s), rest)
  {
    hide Feed, Step, Settle, AtHeader, IsBlank, NextLine;
    LineBegins(g, s, rest[0]);
    NextLineBegins(s);
    LinesNeedBytes(s);
    LinesNeedBytes(NextLine(s));
    SettledAlready(s);
    SettledAlready(NextLine(s));
    ByteFirst(g, s, rest);
    var t := Step(g, s, rest[0]);
    if t.st.Failed? && t.log == s.log {
      FailedStays(g, t, rest[1..]);
    } else {
      SameByte(g, s, NextLine(s), rest);
    }
  }

  lemma LinesNeedBytes(s: Core)
    requires AtHeader(s.st) || LineRead(s.st)
    ensures !NeedsNoByte(s.st)
  {
  }

  /** The run has told all this and the end of the headers, or it was refused before that. */
  predicate Told(log: seq<Event>, r: Core) {
    log + [HeadersComplete] <= r.log || (r.st.Failed? && r.log <= log)
  }

  lemma SectionEnds(g: Grammar, s: Core)
    requires AtHeader(s.st) && !s.flags.trailing
    ensures s.log + [HeadersComplete] <= Feed(g, s, CRLF).log
  {
    hide Feed, Step, Settle, Move;
    LinesNeedBytes(s);
    FeedTwo(g, s, CR, LF);
    SettledAlready(s);
    HeaderCr(g, s);
    var t := s.(st := HeadersLf);
    SettledAlready(t);
    LineFeeds(g, t);
    var u := s.(st := HeadersDone);
    SettleMove(u);
    HeadersAreTold(u);
    SettleLogGrows(Move(u));
  }

  lemma HeaderCr(g: Grammar, s: Core)
    requires AtHeader(s.st)
    ensures Step(g, s, CR) == s.(st := HeadersLf)
  {
  }

  lemma HeadersAreTold(s: Core)
    requires s.st.HeadersDone?
    ensures Move(s).log == s.log + [HeadersComplete]
  {
    hide UpgradeWanted;
  }

  /** A header section of any lines: every name and every value is told in order, then the end of the
      headers, unless the parser refuses the section; then what it has told is the beginning of that. */
  lemma {:induction false} SectionParses(g: Grammar, s: Core, ls: seq<Line>)
    requires (AtHeader(s.st) || LineRead(s.st)) && !s.flags.trailing && AreLines(ls)
    ensures Told(Shown(s) + SectionEvents(ls), Feed(g, s, SectionBytes(ls)))
    decreases |ls|
  {
    hide Feed, LineBytes, LineEvents, AtHeader, LineRead, NextLine, IsLine, IsBlank;
    var bytes, u := SectionBytes(ls), NextLine(s);
    SectionStarts(ls);
    NextLineBegins(s);
    RestBegins(g, s, bytes);
    var r := Feed(g, s, bytes);
    if !(r.st.Failed? && r.log == s.log) {
      if ls == [] {
        SectionEnds(g, u);
        assert Shown(s) + SectionEvents(ls) == Shown(s);
      } else {
        var t := Feed(g, u, LineBytes(ls[0]));
        FeedConcat(g, u, LineBytes(ls[0]), SectionBytes(ls[1..]));
        LineParses(g, u, ls[0]);
        assert Shown(s) + SectionEvents(ls) == u.log + LineEvents(ls[0]) + SectionEvents(ls[1..]);
        if t.st.Failed? {
          FailedStays(g, t, SectionBytes(ls[1..]));
        } else {
          SectionParses(g, t, ls[1..]);
        }
      }
    }
  }

  lemma SectionStarts(ls: seq<Line>)
    requires AreLines(ls)
    ensures SectionBytes(ls) != [] && !IsBlank(SectionBytes(ls)[0])
  {
    hide IsToken;
    if ls != [] {
      assert IsLine(ls[0]);
      TokenIsNoMark(ls[0].name[0]);
      assert SectionBytes(ls)[0] == ls[0].name[0];
    }
  }

  /* ---- from events to the map --------------------------------------------------------------------------------- */

  /** The callbacks of header assembly that events make, span bytes one by one. */
  function CallOf(e: Event): seq<Headers.Call> {
    match e
    case SpanByte(kind, b) =>
      (match kind
       case FieldSpan => [Headers.Field([b])]
       case ValueSpan => [Headers.Value([b])]
       case BodySpan => [])
    case HeadersComplete => [Headers.HeadersComplete]
    case MessageComplete => [Headers.MessageComplete]
    case _ => []
  }

  function CallsOf(log: seq<Event>): seq<Headers.Call> {
    if log == [] then [] else CallOf(log[0]) + CallsOf(log[1..])
  }

  function HeadersOf(ls: seq<Line>): (hs: seq<Headers.Header>)
    ensures |hs| == |ls|
  {
    seq(|ls|, i requires 0 <= i < |ls| => Headers.Header(ls[i].name, ls[i].value))
  }

  function Singles(d: seq<byte>): seq<seq<byte>> {
    if d == [] then [] else [[d[0]]] + Singles(d[1..])
  }

  function CutsOf(ls: seq<Line>): seq<Headers.Cut> {
    if ls == [] then [] else [Headers.Cut(Singles(ls[0].name), Singles(ls[0].value))] + CutsOf(ls[1..])
  }

  lemma {:induction false} CallsConcat(a: seq<Event>, b: seq<Event>)
    ensures CallsOf(a + b) == CallsOf(a) + CallsOf(b)
    decreases |a|
  {
    if a == [] {
      assert a + b == b;
    } else {
      assert (a + b)[1..] == a[1..] + b;
      CallsConcat(a[1..], b);
    }
  }

  lemma {:induction false} SinglesFlatten(d: seq<byte>)
    ensures Flatten(Singles(d)) == d && (d != [] ==> Singles(d) != [])
    decreases |d|
  {
    if d != [] {
      SinglesFlatten(d[1..]);
      assert Singles(d)[1..] == Singles(d[1..]);
    }
  }

  lemma {:induction false} CallsOfNames(d: seq<byte>)
    ensures CallsOf(Spans(FieldSpan, d)) == Headers.Fields(Singles(d))
    decreases |d|
  {
    if d != [] {
      CallsOfNames(d[1..]);
      assert Spans(FieldSpan, d)[1..] == Spans(FieldSpan, d[1..]) && Singles(d)[1..] == Singles(d[1..]);
    }
  }

  lemma {:induction false} CallsOfValues(d: seq<byte>)
    ensures CallsOf(Spans(ValueSpan, d)) == Headers.Values(Singles(d))
    decreases |d|
  {
    if d != [] {
      CallsOfValues(d[1..]);
      assert Spans(ValueSpan, d)[1..] == Spans(ValueSpan, d[1..]) && Singles(d)[1..] == Singles(d[1..]);
    }
  }

  lemma CallsOfOne(e: Event)
    ensures CallsOf([e]) == CallOf(e)
  {
    assert [e][1..] == [];
  }

  lemma CallsOfLine(l: Line)
    ensures CallsOf(LineEvents(l)) == Headers.Fields(Singles(l.name)) + Headers.Values(Singles(l.value))
  {
    hide CallsOf, Spans, Singles;
    var names, values := Spans(FieldSpan, l.name), Spans(ValueSpan, l.value);
    CallsConcat(names + [FieldComplete] + values, [ValueComplete]);
    CallsConcat(names + [FieldComplete], values);
    CallsConcat(names, [FieldComplete]);
    CallsOfNames(l.name);
    CallsOfValues(l.value);
    CallsOfOne(FieldComplete);
    CallsOfOne(ValueComplete);
  }

  lemma {:induction false} CallsOfSection(ls: seq<Line>)
    ensures CallsOf(SectionEvents(ls)) == Headers.HeaderCalls(CutsOf(ls))
    decreases |ls|
  {
    hide LineEvents, Singles;
    if ls != [] {
      CallsConcat(LineEvents(ls[0]), SectionEvents(ls[1..]));
      CallsOfLine(ls[0]);
      CallsOfSection(ls[1..]);
      assert CutsOf(ls)[1..] == CutsOf(ls[1..]);
    }
  }

  lemma {:induction false} CutsOfAreCuts(ls: seq<Line>)
    requires AreLines(ls)
    ensures Headers.AreCuts(CutsOf(ls), HeadersOf(ls))
    decreases |ls|
  {
    hide Singles, Flatten;
    if ls != [] {
      CutsOfAreCuts(ls[1..]);
      SinglesFlatten(ls[0].name);
      SinglesFlatten(ls[0].value);
      assert IsLine(ls[0]) && HeadersOf(ls)[1..] == HeadersOf(ls[1..]);
      forall i | 0 <= i < |ls|
        ensures Headers.IsCut(CutsOf(ls)[i], HeadersOf(ls)[i])
      {
        if i > 0 {
          assert CutsOf(ls)[i] == CutsOf(ls[1..])[i - 1] && HeadersOf(ls)[i] == HeadersOf(ls[1..])[i - 1];
        }
      }
    }
  }

  /** Names and values that the parser lets through are fit for C strings. */
  lemma LinesAreClean(ls: seq<Line>)
    requires AreLines(ls)
    ensures Headers.Named(HeadersOf(ls)) && Headers.NulFree(HeadersOf(ls))
  {
    forall i | 0 <= i < |ls|
      ensures ls[i].name != [] && NUL !in ls[i].name && NUL !in ls[i].value
    {
      assert IsLine(ls[i]);
    }
  }

  /** Header assembly of what the parser tells is that of the same headers in slices of any sizes. */
  lemma SlicesTellTheSame(a: Headers.Assembly, ls: seq<Line>, cs: seq<Headers.Cut>)
    requires Headers.Coherent(a) && AreLines(ls) && Headers.AreCuts(cs, HeadersOf(ls))
    ensures Headers.OnCalls(a, CallsOf(SectionEvents(ls))) == Headers.OnCalls(a, Headers.HeaderCalls(cs))
  {
    LinesAreClean(ls);
    CallsOfSection(ls);
    CutsOfAreCuts(ls);
    Headers.CutsDoNotMatter(a, CutsOf(ls), HeadersOf(ls));
    Headers.CutsDoNotMatter(a, cs, HeadersOf(ls));
  }

  /** No later line has the same name up to case. */
  predicate IsLastOf(ls: seq<Line>, i: nat)
    requires i < |ls|
  {
    forall j :: i < j < |ls| ==> Lower(ls[j].name) != Lower(ls[i].name)
  }

  /** From bytes to the map. A header section of any lines, read where headers may begin, with nothing
      pending from before: unless the parser refuses it, the callbacks are told every line and the end of
      the headers; and what header assembly makes of that faults iff there are lines but no value byte has
      ever been written, and otherwise, if only the last value may be empty, gives a map in which every
      name has the value of its last line. */
  lemma BytesToMap(g: Grammar, s: Core, written: bool, ls: seq<Line>)
    requires AtHeader(s.st) && !s.flags.trailing && AreLines(ls)
    ensures var told := SectionEvents(ls) + [HeadersComplete];
      var b := Headers.OnCalls(Headers.Assembly([], [], written, [], false), CallsOf(told));
      && (var r := Feed(g, s, SectionBytes(ls)); s.log + told <= r.log || (r.st.Failed? && r.log <= s.log + SectionEvents(ls)))
      && (b.faulted <==> ls != [] && !written && forall i :: 0 <= i < |ls| ==> ls[i].value == [])
      && (!b.faulted && (forall i :: 0 <= i < |ls| - 1 ==> ls[i].value != []) ==>
            forall i :: 0 <= i < |ls| && IsLastOf(ls, i) ==>
              var v := StrMap.Lookup(StrMap.InsertAll(map[], b.puts), Lower(ls[i].name)); v.Some? && v.value == ls[i].value)
  {
    hide Feed, Headers.OnCall, SectionEvents, Headers.HeaderCalls, StrMap.InsertAll, Headers.EntryFor;
    var a, hs := Headers.Assembly([], [], written, [], false), HeadersOf(ls);
    LineShown(s, ls);
    SectionParses(g, s, ls);
    CallsConcat(SectionEvents(ls), [HeadersComplete]);
    CallsOfOne(HeadersComplete);
    CallsOfSection(ls);
    LinesAreClean(ls);
    CutsOfAreCuts(ls);
    HeaderValues(ls);
    Headers.MessageHeaders(a, CutsOf(ls), hs);
    var b := Headers.OnCalls(a, CallsOf(SectionEvents(ls) + [HeadersComplete]));
    if !b.faulted && forall i :: 0 <= i < |ls| - 1 ==> ls[i].value != [] {
      assert b.puts == Headers.Intended(hs);
      forall i | 0 <= i < |ls| && IsLastOf(ls, i)
        ensures var v := StrMap.Lookup(StrMap.InsertAll(map[], b.puts), Lower(ls[i].name)); v.Some? && v.value == ls[i].value
      {
        Headers.HeaderMap(hs, i);
      }
    }
  }

  lemma HeaderValues(ls: seq<Line>)
    ensures Headers.NoValues(HeadersOf(ls)) <==> forall i :: 0 <= i < |ls| ==> ls[i].value == []
    ensures Headers.ValuesPresent(HeadersOf(ls)) <==> forall i :: 0 <= i < |ls| - 1 ==> ls[i].value != []
  {
    var hs := HeadersOf(ls);
    assert forall i :: 0 <= i < |ls| ==> hs[i].value == ls[i].value;
  }

  lemma LineShown(s: Core, ls: seq<Line>)
    requires AtHeader(s.st)
    ensures Shown(s) == s.log && s.log + SectionEvents(ls) + [HeadersComplete] == s.log + (SectionEvents(ls) + [HeadersComplete])
  {
  }
}
