/** Whole messages, from the first letter of the header that announces the body to the end of the
    body. The letters of names and codings may be of either case. */
module HttpMessages {
  import opened Bytes
  import opened HttpSpec
  import opened HttpBodies
  import opened HttpSteps

  const CONTENT_LENGTH: seq<byte> := [99, 111, 110, 116, 101, 110, 116, 45, 108, 101, 110, 103, 116, 104]
  const TRANSFER_ENCODING: seq<byte> := [116, 114, 97, 110, 115, 102, 101, 114, 45, 101, 110, 99, 111, 100, 105, 110, 103]
  const CHUNKED: seq<byte> := [99, 104, 117, 110, 107, 101, 100]

  /* ---- keywords --------------------------------------------------------------------------------- */

  /** The matcher of a keyword, resumed anywhere in it, takes the rest of the word in either case. */
  lemma WordMatches(g: Grammar, s: Core, w: Word, bytes: seq<byte>)
    requires s.st == FieldWord(w) && s.index < |Letters(w)|
    requires Lower(bytes) == Letters(w)[s.index..]
    ensures Feed(g, s, bytes) == WordField(s.(st := Field, index := 0, log := s.log + Spans(FieldSpan, bytes)), w)
  {
    hide Feed, Step, Settle, Letters, LowerByte;
    var k := |bytes| - 1;
    var start, b := bytes[..k], bytes[k];
    assert bytes == start + [b];
    forall i | 0 <= i <= k
      ensures Folded(s.st, bytes[i]) == Letters(w)[s.index + i]
    {
      assert Lower(bytes)[i] == LowerByte(bytes[i]);
    }
    MatchRun(g, s, start, [b]);
    var t := s.(index := s.index + k, log := s.log + Spans(FieldSpan, start));
    FeedByte(g, t, b);
    SettledAlready(t);
    FieldWordEnds(g, t, b);
    SpansConcat(FieldSpan, start, [b]);
    assert t.log + [SpanByte(FieldSpan, b)] == s.log + Spans(FieldSpan, bytes);
    WordSettled(Into(t.(index := 0), FieldSpan, b, Field), w);
  }

  lemma WordSettled(s: Core, w: Word)
    ensures Settle(WordField(s, w)) == WordField(s, w)
  {
    match w
    case On =>
    case EntLength =>
    case RansferEncoding =>
    case Pgrade =>
    case _ =>
  }

  /** One letter that opens a keyword. */
  lemma FirstLetter(g: Grammar, s: Core, b: byte)
    requires AtHeader(s.st) && (LowerByte(b) == 99 || LowerByte(b) == 116)
    ensures Feed(g, s, [b]) == Into(s, FieldSpan, b, FieldWord(if LowerByte(b) == 99 then On else RansferEncoding))
  {
    hide Feed, Settle, Step;
    FeedByte(g, s, b);
    SettledAlready(s);
    HeaderByte(g, s, b);
    SettledAlready(Into(s, FieldSpan, b, FieldWord(if LowerByte(b) == 99 then On else RansferEncoding)));
  }

  /** Where a header may begin. */
  predicate AtHeader(st: St) {
    st.HeadersStart? || st.FieldStart?
  }

  lemma HeaderByte(g: Grammar, s: Core, b: byte)
    requires AtHeader(s.st) && (LowerByte(b) == 99 || LowerByte(b) == 116)
    ensures Step(g, s, b) == Into(s, FieldSpan, b, FieldWord(if LowerByte(b) == 99 then On else RansferEncoding))
  {
    hide InFieldGeneral;
    assert Step(g, s, b) == InFieldStart(s, b) == InField(s, b);
  }

  lemma SecondLetter(g: Grammar, s: Core, b: byte)
    requires s.st.FieldCo? && LowerByte(b) == 116
    ensures Feed(g, s, [b]) == Into(s, FieldSpan, b, FieldWord(EntLength))
  {
    hide Feed, Settle, InFieldGeneral;
    FeedByte(g, s, b);
    SettledAlready(s);
    SettledAlready(Into(s, FieldSpan, b, FieldWord(EntLength)));
  }

  lemma LettersOfLength()
    ensures CONTENT_LENGTH[1..3] == Letters(On)[0..] && CONTENT_LENGTH[4..] == Letters(EntLength)[0..]
    ensures 0 < |Letters(On)| && 0 < |Letters(EntLength)|
  {
  }

  lemma LowerSlices(name: seq<byte>)
    ensures |Lower(name)| == |name|
    ensures |name| >= 4 ==> Lower(name[1..3]) == Lower(name)[1..3] && Lower(name[4..]) == Lower(name)[4..]
    ensures |name| >= 4 ==> LowerByte(name[0]) == Lower(name)[0] && LowerByte(name[3]) == Lower(name)[3]
  {
  }

  lemma ContentLengthName(g: Grammar, s: Core, name: seq<byte>)
    requires AtHeader(s.st) && s.index == 0 && Lower(name) == CONTENT_LENGTH
    ensures Feed(g, s, name) == s.(st := FieldColon, hs := ContentLength, log := s.log + Spans(FieldSpan, name))
  {
    hide Feed, Letters, Lower, LowerByte, Spans, AtHeader;
    LettersOfLength();
    LowerSlices(name);
    var con, tent := name[..3], name[3..];
    assert name == con + tent;
    assert Lower(con) == CONTENT_LENGTH[..3] by { LowerCon(name); }
    FeedConcat(g, s, con, tent);
    ConName(g, s, con);
    var u := s.(st := FieldCo, log := s.log + Spans(FieldSpan, con));
    var v := Into(u, FieldSpan, name[3], FieldWord(EntLength));
    assert tent == [name[3]] + name[4..];
    FeedConcat(g, u, [name[3]], name[4..]);
    SecondLetter(g, u, name[3]);
    WordMatches(g, v, EntLength, name[4..]);
    SpansConcat(FieldSpan, con, tent);
    SpansConcat(FieldSpan, [name[3]], name[4..]);
    OneSpan(FieldSpan, name[3]);
    assert v.log + Spans(FieldSpan, name[4..]) == s.log + Spans(FieldSpan, name);
  }

  lemma LowerCon(name: seq<byte>)
    requires |name| >= 3
    ensures Lower(name[..3]) == Lower(name)[..3]
  {
  }

  /** The letters of `con`, after which two keywords are possible. */
  lemma ConName(g: Grammar, s: Core, con: seq<byte>)
    requires AtHeader(s.st) && s.index == 0 && Lower(con) == CONTENT_LENGTH[..3]
    ensures Feed(g, s, con) == s.(st := FieldCo, log := s.log + Spans(FieldSpan, con))
  {
    hide Feed, Letters, LowerByte, Spans, AtHeader;
    LettersOfLength();
    var t := Into(s, FieldSpan, con[0], FieldWord(On));
    assert con == [con[0]] + con[1..];
    assert LowerByte(con[0]) == Lower(con)[0] && Lower(con[1..]) == Lower(con)[1..] == CONTENT_LENGTH[1..3];
    FeedConcat(g, s, [con[0]], con[1..]);
    FirstLetter(g, s, con[0]);
    WordMatches(g, t, On, con[1..]);
    SpansConcat(FieldSpan, [con[0]], con[1..]);
    OneSpan(FieldSpan, con[0]);
    assert t.log + Spans(FieldSpan, con[1..]) == s.log + Spans(FieldSpan, con);
  }

  lemma TransferEncodingName(g: Grammar, s: Core, name: seq<byte>)
    requires AtHeader(s.st) && s.index == 0 && Lower(name) == TRANSFER_ENCODING
    ensures Feed(g, s, name) == s.(st := FieldColon, hs := TransferEncoding, log := s.log + Spans(FieldSpan, name))
  {
    hide Feed, Step, Settle, Letters, Lower, LowerByte, Spans, AtHeader;
    LettersOfEncoding(name);
    var rest := name[1..];
    assert name == [name[0]] + rest;
    FeedConcat(g, s, [name[0]], rest);
    FirstLetter(g, s, name[0]);
    var t := Into(s, FieldSpan, name[0], FieldWord(RansferEncoding));
    WordMatches(g, t, RansferEncoding, rest);
    SpansConcat(FieldSpan, [name[0]], rest);
    OneSpan(FieldSpan, name[0]);
    assert t.log + Spans(FieldSpan, rest) == s.log + Spans(FieldSpan, name);
  }

  lemma LettersOfEncoding(name: seq<byte>)
    requires Lower(name) == TRANSFER_ENCODING
    ensures |name| == |TRANSFER_ENCODING| && LowerByte(name[0]) == 116
    ensures Lower(name[1..]) == Letters(RansferEncoding)[0..] && 0 < |Letters(RansferEncoding)|
  {
    assert TRANSFER_ENCODING[1..] == Letters(RansferEncoding);
    assert Lower(name[1..]) == Lower(name)[1..];
  }

  /** The colon ends the name. */
  lemma Colon(g: Grammar, s: Core)
    requires s.st.FieldColon?
    requires !(s.hs.ContentLength? && s.flags.transferEncoding) && !(s.hs.TransferEncoding? && s.flags.contentLength)
    ensures Feed(g, s, [COLON]) == s.(st := DiscardWs, log := s.log + [FieldComplete])
  {
    hide Feed, Settle, InFieldGeneral;
    FeedByte(g, s, COLON);
    SettledAlready(s);
    var t := Note(s, FieldComplete).(st := FieldKnown);
    SettleMove(s.(st := FieldDone));
    SettleMove(t);
    SettledAlready(t.(st := DiscardWs));
  }

  predicate AllBlank(d: seq<byte>) {
    forall i :: 0 <= i < |d| ==> IsBlank(d[i])
  }

  predicate AllSpaces(d: seq<byte>) {
    forall i :: 0 <= i < |d| ==> d[i] == SP
  }

  /** Blanks before a value are not part of it. */
  lemma {:induction false} BlanksBefore(g: Grammar, s: Core, d: seq<byte>)
    requires s.st.DiscardWs? && AllBlank(d)
    ensures Feed(g, s, d) == s
    decreases |d|
  {
    hide Step, Settle;
    SettledAlready(s);
    if d != [] {
      BlankBefore(g, s, d[0]);
      BlanksBefore(g, s, d[1..]);
    }
  }

  lemma BlankBefore(g: Grammar, s: Core, b: byte)
    requires s.st.DiscardWs? && IsBlank(b)
    ensures Step(g, s, b) == s
  {
  }

  /** Blanks after the digits of Content-Length are part of the value the callbacks see. */
  lemma {:induction false} BlanksAfter(g: Grammar, s: Core, d: seq<byte>)
    requires (s.st.Length? || s.st.LengthWs?) && AllBlank(d)
    ensures Feed(g, s, d) == if d == [] then s else s.(st := LengthWs, log := s.log + Spans(ValueSpan, d))
    decreases |d|
  {
    hide Feed, Step, Settle;
    if d == [] {
      FeedNothing(g, s);
      SettledAlready(s);
    } else {
      var t := Into(s, ValueSpan, d[0], LengthWs);
      BlankAfter(g, s, d[0]);
      ByteFirst(g, s, d);
      BlanksAfter(g, t, d[1..]);
      assert t.log + Spans(ValueSpan, d[1..]) == s.log + Spans(ValueSpan, d);
      assert d[1..] == [] ==> s.log + Spans(ValueSpan, d) == t.log;
    }
  }

  lemma BlankAfter(g: Grammar, s: Core, b: byte)
    requires (s.st.Length? || s.st.LengthWs?) && IsBlank(b)
    ensures Step(g, s, b) == Into(s, ValueSpan, b, LengthWs)
  {
    hide MulAdd, AfterOverflow;
  }

  /** Only spaces may follow `chunked`; a tab makes it another coding. */
  lemma {:induction false} SpacesAfter(g: Grammar, s: Core, d: seq<byte>)
    requires s.st.TeLast? && AllSpaces(d)
    ensures Feed(g, s, d) == s.(log := s.log + Spans(ValueSpan, d))
    decreases |d|
  {
    hide Feed, Step, Settle;
    if d == [] {
      FeedNothing(g, s);
      SettledAlready(s);
      assert s.log + Spans(ValueSpan, d) == s.log;
    } else {
      var t := Into(s, ValueSpan, SP, TeLast);
      SpaceAfter(g, s);
      ByteFirst(g, s, d);
      SpacesAfter(g, t, d[1..]);
      assert t.log + Spans(ValueSpan, d[1..]) == s.log + Spans(ValueSpan, d);
    }
  }

  lemma SpaceAfter(g: Grammar, s: Core)
    requires s.st.TeLast?
    ensures Step(g, s, SP) == Into(s, ValueSpan, SP, TeLast)
  {
    hide InTeToken, InValueEnd;
  }

  /** The letters before a header keyword. */
  function Opening(w: Word): seq<byte> {
    match w
    case On => [99]
    case Ection => [99, 111, 110, 110]
    case EntLength => [99, 111, 110, 116]
    case RoxyConnection => [112]
    case RansferEncoding => [116]
    case Pgrade => [117]
    case _ => []
  }

  predicate NameWord(w: Word) {
    w.On? || w.Ection? || w.EntLength? || w.RoxyConnection? || w.RansferEncoding? || w.Pgrade?
  }

  lemma LowerNext(name: seq<byte>, b: byte)
    ensures Lower(name + [b]) == Lower(name) + [LowerByte(b)]
  {
  }

  /* ---- the digits at the front of a value ---------------------------------------------------------- */

  /** The digits a value begins with. */
  function DigitsOf(value: seq<byte>): (ds: seq<byte>)
    ensures AllDigits(ds) && AllHex(ds)
  {
    if value != [] && IsDigit(value[0]) then [value[0]] + DigitsOf(value[1..]) else []
  }

  function LengthOf(value: seq<byte>): nat {
    Numeral(10, DigitsOf(value))
  }

  lemma {:induction false} DigitsOfDigits(ds: seq<byte>)
    requires AllDigits(ds)
    ensures DigitsOf(ds) == ds
    decreases |ds|
  {
    if ds != [] {
      DigitsOfDigits(ds[1..]);
    }
  }

  lemma {:induction false} DigitsStop(value: seq<byte>, b: byte)
    requires !IsDigit(b)
    ensures DigitsOf(value + [b]) == DigitsOf(value)
    decreases |value|
  {
    if value == [] {
      assert value + [b] == [b];
    } else {
      assert (value + [b])[1..] == value[1..] + [b];
      DigitsStop(value[1..], b);
    }
  }

  lemma DigitNext(ds: seq<byte>, b: byte)
    requires AllDigits(ds) && IsDigit(b)
    ensures AllHex(ds) && AllHex(ds + [b]) && Numeral(10, ds + [b]) == Numeral(10, ds) * 10 + (b - 48)
  {
    assert (ds + [b])[..|ds|] == ds;
  }

  lemma DigitsMeasure(value: seq<byte>)
    requires AllDigits(value) && AllHex(value)
    ensures LengthOf(value) == Numeral(10, value)
  {
    DigitsOfDigits(value);
  }

  /* ---- values and the end of the headers -------------------------------------------------------- */

  lemma TokenKeepsTrailing(s: Core)
    ensures ApplyToken(s).flags.trailing == s.flags.trailing && ApplyToken(s).st == s.st
  {
    match s.hs
    case TokenKeepAlive =>
    case TokenClose =>
    case TokenUpgrade =>
    case TokenChunked =>
    case _ =>
  }

  /** The blank line after the last value. */
  lemma LastLine(g: Grammar, s: Core)
    requires s.st.ValueLws? && !s.flags.trailing
    ensures Feed(g, s, CRLF) == Settle(Note(ApplyToken(s), ValueComplete).(st := HeadersDone))
  {
    hide Feed, Settle, ApplyToken;
    TokenKeepsTrailing(s);
    FeedTwo(g, s, CR, LF);
    SettledAlready(s);
    var t := Note(ApplyToken(s), ValueComplete).(st := HeadersLf);
    assert Step(g, s, CR) == InValueLws(s, CR);
    assert InValueLws(s, CR) == InFieldStart(Note(ApplyToken(s), ValueComplete), CR) == t;
    SettledAlready(t);
    assert Step(g, t, LF) == t.(st := HeadersDone);
  }

  /** The end of a header value, from the state its value was read in. */
  lemma LengthEnds(g: Grammar, s: Core)
    requires s.st.Length? || s.st.LengthWs?
    ensures Feed(g, s, CRLF) == s.(st := ValueLws, flags := s.flags.(contentLength := true))
  {
    hide Feed, Settle, Step;
    FeedTwo(g, s, CR, LF);
    SettledAlready(s);
    var t := s.(st := ValueLf, flags := s.flags.(contentLength := true));
    LengthCr(g, s);
    SettledAlready(t);
    ValueLineFeed(g, t);
    SettledAlready(t.(st := ValueLws));
  }

  lemma LengthCr(g: Grammar, s: Core)
    requires s.st.Length? || s.st.LengthWs?
    ensures Step(g, s, CR) == s.(st := ValueLf, flags := s.flags.(contentLength := true))
  {
    hide MulAdd, AfterOverflow;
  }

  lemma ValueLineFeed(g: Grammar, s: Core)
    requires s.st.ValueLf?
    ensures Step(g, s, LF) == s.(st := ValueLws)
  {
  }

  lemma CodingEnds(g: Grammar, s: Core)
    requires s.st.TeLast?
    ensures Feed(g, s, CRLF) == s.(st := ValueLws, hs := TokenChunked)
  {
    hide Feed, Settle;
    FeedTwo(g, s, CR, LF);
    SettledAlready(s);
    var t := s.(st := ValueLf, hs := TokenChunked);
    assert Step(g, s, CR) == InTeLast(s, CR) == t;
    SettledAlready(t);
    assert Step(g, t, LF) == t.(st := ValueLws);
    SettledAlready(t.(st := ValueLws));
  }

  lemma BitFive(b: byte, c: byte)
    requires LowerByte(b) == c && 97 <= c <= 122
    ensures OrBit5(b) == c
  {
  }

  /** `chunked` in either case, read from its first letter. */
  lemma CodingMatches(g: Grammar, s: Core, coding: seq<byte>)
    requires s.st.TeChunked? && s.index == 0 && Lower(coding) == CHUNKED
    ensures Feed(g, s, coding) == s.(st := TeLast, log := s.log + Spans(ValueSpan, coding))
  {
    hide Feed, Step, Settle, LowerByte, OrBit5;
    assert Letters(Chunked) == CHUNKED;
    var start, b := coding[..6], coding[6];
    assert coding == start + [b];
    forall i | 0 <= i < 7
      ensures Folded(s.st, coding[i]) == CHUNKED[i]
    {
      assert Lower(coding)[i] == LowerByte(coding[i]);
      BitFive(coding[i], CHUNKED[i]);
    }
    MatchRun(g, s, start, [b]);
    var t := s.(index := 6, log := s.log + Spans(ValueSpan, start));
    FeedByte(g, t, b);
    SettledAlready(t);
    CodingWordEnds(g, t, b);
    SpansConcat(ValueSpan, start, [b]);
    assert t.log + [SpanByte(ValueSpan, b)] == s.log + Spans(ValueSpan, coding);
    SettledAlready(s.(st := TeLast, log := s.log + Spans(ValueSpan, coding)));
  }

  lemma CodingValue(g: Grammar, s: Core, coding: seq<byte>)
    requires s.st.DiscardWs? && s.hs.TransferEncoding? && !s.flags.chunked && s.index == 0 && Lower(coding) == CHUNKED
    ensures Feed(g, s, coding) ==
            s.(st := TeLast, flags := s.flags.(transferEncoding := true, chunked := false), log := s.log + Spans(ValueSpan, coding))
  {
    hide Feed, Settle, Spans, InTeChunked;
    var b := coding[0];
    assert Lower(coding)[0] == LowerByte(b) == 99;
    var t := s.(st := TeChunked, flags := s.flags.(transferEncoding := true, chunked := false));
    CodingForgets(s.(flags := t.flags), TeChunked, b);
    assert Step(g, s, b) == InDiscardWs(s, b) == InValueStart(s, b);
    assert Step(g, t, b) == InTeChunked(t, b);
    SettledAlready(s);
    SettledAlready(t);
    SameByte(g, s, t, coding);
    CodingMatches(g, t, coding);
  }

  /* ---- whole messages --------------------------------------------------------------------------- */

  /** Where a header of a message may begin, none having announced a body. A CONNECT request has none
      whatever it announces (`ConnectHasNoBody`). */
  predicate InHeaders(s: Core) {
    && AtHeader(s.st) && s.index == 0 && s.length == 0 && !s.connect
    && !s.flags.contentLength && !s.flags.transferEncoding && !s.flags.chunked && !s.flags.trailing
  }

  /** The headers seen so far ask for an upgrade. */
  predicate AsksUpgrade(s: Core) {
    s.flags.upgrade && s.flags.connUpgrade
  }

  /** The last header of a message: its value may have blanks around it. */
  function LastHeader(name: seq<byte>, before: seq<byte>, value: seq<byte>, after: seq<byte>): seq<byte> {
    name + ([COLON] + (before + (value + (after + (CRLF + CRLF)))))
  }

  function HeaderEvents(name: seq<byte>, value: seq<byte>): seq<Event> {
    Spans(FieldSpan, name) + [FieldComplete] + Spans(ValueSpan, value) + [ValueComplete, HeadersComplete]
  }

  lemma HeadersEnd(s: Core)
    requires s.st.HeadersDone? && !s.connect
    ensures Settle(s) == Settle(Note(s, HeadersComplete).(st := AfterHeaders, upgrade := AsksUpgrade(s)))
  {
    hide Settle;
    SettleMove(s);
  }

  /** After the headers of a CONNECT request nothing is read. */
  lemma ConnectHasNoBody(g: Grammar, s: Core, bytes: seq<byte>)
    requires s.st.HeadersDone? && s.connect
    ensures Feed(g, s, bytes) == s.(st := Upgraded, upgrade := true, log := s.log + [HeadersComplete, MessageComplete])
  {
    hide Feed, Settle, Step;
    var t := Note(s, HeadersComplete).(st := AfterHeaders, upgrade := true);
    MoveFirst(g, s, bytes);
    MoveFirst(g, t, bytes);
    MoveFirst(g, t.(st := UpgradeComplete), bytes);
    var u := Note(t, MessageComplete).(st := GoUpgrade);
    assert u.log == s.log + [HeadersComplete, MessageComplete];
    UpgradeFeeds(g, u, bytes);
  }

  /** The state after the last header, when it is Content-Length. */
  function WithLength(s: Core, n: nat, events: seq<Event>): Core {
    s.(st := AfterHeaders, hs := ContentLength, length := n, upgrade := AsksUpgrade(s),
       flags := s.flags.(contentLength := true), log := s.log + events)
  }

  /** The last header of a message being Content-Length with a value that fits. */
  lemma LengthHeaderParses(g: Grammar, s: Core, name: seq<byte>, before: seq<byte>, digits: seq<byte>, after: seq<byte>)
    requires InHeaders(s) && Lower(name) == CONTENT_LENGTH && AllBlank(before) && AllBlank(after)
    requires digits != [] && AllDigits(digits) && AllHex(digits) && Numeral(10, digits) <= UINT64_MAX
    ensures Feed(g, s, LastHeader(name, before, digits, after)) ==
            Settle(WithLength(s, Numeral(10, digits), HeaderEvents(name, digits + after)))
  {
    hide Feed, Settle, Numeral, Lower, Spans;
    var end := CRLF + CRLF;
    FeedConcat(g, s, name, [COLON] + (before + (digits + (after + end))));
    ContentLengthName(g, s, name);
    var t := s.(st := FieldColon, hs := ContentLength, log := s.log + Spans(FieldSpan, name));
    FeedConcat(g, t, [COLON], before + (digits + (after + end)));
    Colon(g, t);
    var u := t.(st := DiscardWs, log := t.log + [FieldComplete]);
    FeedConcat(g, u, before, digits + (after + end));
    BlanksBefore(g, u, before);
    FeedConcat(g, u, digits, after + end);
    LengthDigits(g, u, digits);
    var v := u.(st := Length, length := Numeral(10, digits), log := u.log + Spans(ValueSpan, digits));
    FeedConcat(g, v, after, end);
    BlanksAfter(g, v, after);
    var w := v.(st := if after == [] then Length else LengthWs, log := u.log + Spans(ValueSpan, digits + after));
    SpansConcat(ValueSpan, digits, after);
    assert after == [] ==> digits + after == digits;
    assert v.log + Spans(ValueSpan, after) == w.log;
    LengthLineEnds(g, w);
    assert w.log + [ValueComplete] + [HeadersComplete] == s.log + HeaderEvents(name, digits + after);
  }

  lemma LengthLineEnds(g: Grammar, s: Core)
    requires (s.st.Length? || s.st.LengthWs?) && s.hs.ContentLength? && !s.connect && !s.flags.trailing
    ensures Feed(g, s, CRLF + CRLF) ==
            Settle(s.(st := AfterHeaders, upgrade := AsksUpgrade(s), flags := s.flags.(contentLength := true),
                      log := s.log + [ValueComplete] + [HeadersComplete]))
  {
    hide Feed, Settle;
    FeedConcat(g, s, CRLF, CRLF);
    LengthEnds(g, s);
    var w := s.(st := ValueLws, flags := s.flags.(contentLength := true));
    LastLine(g, w);
    HeadersEnd(Note(w, ValueComplete).(st := HeadersDone));
  }

  /** A message whose last header is Content-Length, in any pieces: its header, then exactly the body
      it announced, then one message-complete. */
  lemma ContentLengthMessage(g: Grammar, s: Core, name: seq<byte>, before: seq<byte>, digits: seq<byte>, after: seq<byte>,
                             body: seq<byte>, pieces: seq<seq<byte>>)
    requires InHeaders(s) && Lower(name) == CONTENT_LENGTH && AllBlank(before) && AllBlank(after)
    requires digits != [] && AllDigits(digits) && AllHex(digits) && Numeral(10, digits) == |body| && 0 < |body| <= UINT64_MAX
    requires Flatten(pieces) == LastHeader(name, before, digits, after) + body
    ensures var r := FeedAll(g, s, pieces);
      && r.log == s.log + HeaderEvents(name, digits + after) + Spans(BodySpan, body) + [MessageComplete]
      && IsOver(AsksUpgrade(s), r.st)
  {
    hide Feed, FeedAll, Settle, Numeral, Lower, HeaderEvents, LastHeader;
    FeedAllIsFeed(g, s, pieces);
    FeedConcat(g, s, LastHeader(name, before, digits, after), body);
    LengthHeaderParses(g, s, name, before, digits, after);
    var t := WithLength(s, |body|, HeaderEvents(name, digits + after));
    FeedSettled(g, t, body);
    OnePiece(g, t, body);
    KnownLengthBody(g, t, [body]);
    MessageOver(t.(st := AtEnd(t), length := 0, log := t.log + Spans(BodySpan, body) + [MessageComplete]));
  }

  lemma OnePiece(g: Grammar, s: Core, d: seq<byte>)
    ensures Flatten([d]) == d && FeedAll(g, s, [d]) == Feed(g, s, d)
  {
    assert [d][1..] == [];
    assert Flatten([d]) == d + Flatten([]);
    FeedAllIsFeed(g, s, [d]);
  }

  /** The state after the last header, when it is `Transfer-Encoding: chunked`. */
  function WithChunks(s: Core, events: seq<Event>): Core {
    s.(st := AfterHeaders, hs := TokenChunked, upgrade := AsksUpgrade(s),
       flags := s.flags.(transferEncoding := true, chunked := true), log := s.log + events)
  }

  lemma CodingHeaderParses(g: Grammar, s: Core, name: seq<byte>, before: seq<byte>, coding: seq<byte>, after: seq<byte>)
    requires InHeaders(s) && Lower(name) == TRANSFER_ENCODING && Lower(coding) == CHUNKED && AllBlank(before) && AllSpaces(after)
    ensures Feed(g, s, LastHeader(name, before, coding, after)) == Settle(WithChunks(s, HeaderEvents(name, coding + after)))
  {
    hide Feed, Settle, Lower, Spans;
    var end := CRLF + CRLF;
    FeedConcat(g, s, name, [COLON] + (before + (coding + (after + end))));
    TransferEncodingName(g, s, name);
    var t := s.(st := FieldColon, hs := TransferEncoding, log := s.log + Spans(FieldSpan, name));
    FeedConcat(g, t, [COLON], before + (coding + (after + end)));
    Colon(g, t);
    var u := t.(st := DiscardWs, log := t.log + [FieldComplete]);
    FeedConcat(g, u, before, coding + (after + end));
    BlanksBefore(g, u, before);
    FeedConcat(g, u, coding, after + end);
    CodingValue(g, u, coding);
    var v := u.(st := TeLast, flags := u.flags.(transferEncoding := true, chunked := false), log := u.log + Spans(ValueSpan, coding));
    FeedConcat(g, v, after, end);
    SpacesAfter(g, v, after);
    var w := v.(log := u.log + Spans(ValueSpan, coding + after));
    SpansConcat(ValueSpan, coding, after);
    assert v.log + Spans(ValueSpan, after) == w.log;
    CodingLineEnds(g, w);
    assert w.log + [ValueComplete] + [HeadersComplete] == s.log + HeaderEvents(name, coding + after);
  }

  lemma CodingLineEnds(g: Grammar, s: Core)
    requires s.st.TeLast? && !s.connect && !s.flags.trailing
    ensures Feed(g, s, CRLF + CRLF) ==
            Settle(s.(st := AfterHeaders, hs := TokenChunked, upgrade := AsksUpgrade(s), flags := s.flags.(chunked := true),
                      log := s.log + [ValueComplete] + [HeadersComplete]))
  {
    hide Feed, Settle;
    FeedConcat(g, s, CRLF, CRLF);
    CodingEnds(g, s);
    var w := s.(st := ValueLws, hs := TokenChunked);
    LastLine(g, w);
    HeadersEnd(Note(ApplyToken(w), ValueComplete).(st := HeadersDone));
  }

  /** A message whose last header is `Transfer-Encoding: chunked`, in any pieces: its header, then the
      chunks' data as the body, then one message-complete. */
  lemma ChunkedMessage(g: Grammar, s: Core, name: seq<byte>, before: seq<byte>, coding: seq<byte>, after: seq<byte>,
                       datas: seq<seq<byte>>, pieces: seq<seq<byte>>)
    requires InHeaders(s) && Lower(name) == TRANSFER_ENCODING && Lower(coding) == CHUNKED && AllBlank(before) && AllSpaces(after)
    requires forall i :: 0 <= i < |datas| ==> 0 < |datas[i]| <= UINT64_MAX
    requires Flatten(pieces) == LastHeader(name, before, coding, after) + EncodeChunked(datas)
    ensures var r, log := FeedAll(g, s, pieces), s.log + HeaderEvents(name, coding + after);
      && Delivered(BodySpan, r.log) == Delivered(BodySpan, log) + Flatten(datas)
      && Sizes(r.log) == Sizes(log) + (Lengths(datas) + [0])
      && Fired(ChunkComplete, r.log) == Fired(ChunkComplete, log) + |datas| + 1
      && Fired(MessageComplete, r.log) == Fired(MessageComplete, log) + 1
      && IsOver(AsksUpgrade(s), r.st)
  {
    hide Feed, FeedAll, Settle, Lower, HeaderEvents, EncodeChunked, Delivered, Sizes, LastHeader;
    FeedAllIsFeed(g, s, pieces);
    FeedConcat(g, s, LastHeader(name, before, coding, after), EncodeChunked(datas));
    CodingHeaderParses(g, s, name, before, coding, after);
    var t := WithChunks(s, HeaderEvents(name, coding + after));
    FeedSettled(g, t, EncodeChunked(datas));
    OnePiece(g, t, EncodeChunked(datas));
    ChunkedRoundTrip(g, t, datas, [EncodeChunked(datas)]);
  }
}
