/** How steps of the request parser chain: what has been logged stays logged, and where a step may be
    taken in two parts. */
module HttpSteps {
  import opened Bytes
  import opened HttpSpec
  import opened HttpBodies

  /* ---- events are never taken back --------------------------------------------------------------- */

  predicate Grows(s: Core, r: Core) {
    s.log <= r.log
  }

  lemma FieldLogGrows(s: Core, w: Word, b: byte)
    ensures Grows(s, InFieldGeneral(s, b)) && Grows(s, InFieldColon(s, b)) && Grows(s, InFieldWord(s, w, b))
    ensures Grows(s, InFieldCo(s, b)) && Grows(s, InField(s, b))
  {
    hide Letters, LowerByte, IsToken;
    FieldOtherwiseLogGrows(s, b);
    FieldGeneralLogGrows(s, b);
    FieldGeneralLogGrows(s.(hs := General), b);
    FieldGeneralLogGrows(s.(index := 0, hs := General), b);
    FieldWordLogGrows(s, w, b);
    hide InFieldGeneral, InFieldWord, InFieldOtherwise;
  }

  lemma FieldOtherwiseLogGrows(s: Core, b: byte)
    ensures Grows(s, InFieldOtherwise(s, b))
  {
  }

  lemma FieldGeneralLogGrows(s: Core, b: byte)
    ensures Grows(s, InFieldGeneral(s, b))
  {
    FieldOtherwiseLogGrows(s, b);
  }

  lemma FieldWordLogGrows(s: Core, w: Word, b: byte)
    ensures Grows(s, InFieldWord(s, w, b))
  {
    hide Letters, LowerByte, InFieldGeneral;
    FieldGeneralLogGrows(s.(index := 0, hs := General), b);
    match w
    case On =>
    case EntLength =>
    case RansferEncoding =>
    case Pgrade =>
    case _ =>
  }

  lemma FieldStartLogGrows(s: Core, b: byte)
    ensures Grows(s, InFieldStart(s, b))
  {
    hide InField;
    FieldLogGrows(s, On, b);
  }

  lemma ValueLogGrows(s: Core, b: byte)
    ensures Grows(s, InValueEnd(s, b)) && Grows(s, InValue(s, b)) && Grows(s, InConnToken(s, b))
  {
  }

  lemma ConnLogGrows(s: Core, w: Word, b: byte)
    ensures Grows(s, InConn(s, b)) && Grows(s, InConnWord(s, w, b)) && Grows(s, InConnWs(s, b))
  {
    hide Letters, LowerByte, InConnToken, InValueEnd, WordToken;
    ValueLogGrows(s, b);
    ValueLogGrows(s.(index := 0), b);
    ValueLogGrows(s.(hs := General), b);
    ApplyTokenKeepsLog(s);
    hide ApplyToken;
  }

  lemma ApplyTokenKeepsLog(s: Core)
    ensures ApplyToken(s).log == s.log
  {
    match s.hs
    case TokenKeepAlive =>
    case TokenClose =>
    case TokenUpgrade =>
    case TokenChunked =>
    case _ =>
  }

  lemma LengthLogGrows(s: Core, b: byte)
    ensures Grows(s, InLengthWs(s, b)) && Grows(s, InLength(s, b))
  {
    hide InValueEnd, MulAdd, AfterOverflow;
    ValueLogGrows(s.(flags := s.flags.(contentLength := true)), b);
  }

  lemma TeTokenLogGrows(s: Core, b: byte)
    ensures Grows(s, InTeToken(s, b))
  {
    hide InValue;
    ValueLogGrows(s.(hs := General), b);
  }

  lemma TeLogGrows(s: Core, b: byte)
    ensures Grows(s, InTeChunked(s, b)) && Grows(s, InTeLast(s, b)) && Grows(s, InTeOws(s, b))
  {
    hide InTeToken, InValueEnd, Letters, OrBit5;
    TeTokenLogGrows(s, b);
    TeTokenLogGrows(s.(index := 0), b);
    ValueLogGrows(s.(hs := TokenChunked), b);
  }

  lemma ValueStartLogGrows(s: Core, b: byte)
    ensures Grows(s, InValueStart(s, b))
  {
    hide InConn, InLength, InTeChunked, InValue;
    match s.hs
    case Connection => ConnLogGrows(s, Lose, b);
    case ContentLength => LengthLogGrows(s, b);
    case TransferEncoding => TeLogGrows(s.(flags := s.flags.(transferEncoding := true, chunked := false)), b);
    case Upgrade => ValueLogGrows(s.(flags := s.flags.(upgrade := true), hs := General), b);
    case _ => ValueLogGrows(s, b);
  }

  lemma NextLineLogGrows(s: Core, b: byte)
    ensures Grows(s, InDiscardLws(s, b)) && Grows(s, InValueLws(s, b)) && Grows(s, InDiscardWs(s, b))
  {
    hide InFieldStart, ApplyToken, InValueStart;
    ApplyTokenKeepsLog(s);
    FieldStartLogGrows(Note(ApplyToken(s), ValueComplete), b);
    ValueStartLogGrows(s, b);
  }

  lemma LineLogGrows(g: Grammar, s: Core, b: byte)
    ensures Grows(s, InLine(g, s, b)) && Grows(s, InExt(g, s, b)) && Grows(s, InStart(g, s, b))
  {
    hide InLine, InExt, Settle;
    OneLineLogGrows(g, s, b);
    var t := Settle(s.(st := if s.seen then OnReset else OnBegin));
    SettleLogGrows(s.(st := if s.seen then OnReset else OnBegin));
    OneLineLogGrows(g, t, b);
  }

  lemma OneLineLogGrows(g: Grammar, s: Core, b: byte)
    ensures Grows(s, InLine(g, s, b)) && Grows(s, InExt(g, s, b))
  {
  }

  lemma MoveLogGrows(s: Core)
    requires NeedsNoByte(s.st)
    ensures Grows(s, Move(s))
  {
    hide AfterHeadersComplete, ShouldKeepAlive, UpgradeWanted, NeedsNoByte;
  }

  lemma {:induction false} SettleLogGrows(s: Core)
    ensures Grows(s, Settle(s))
    decreases Pending(s.st)
  {
    hide Move;
    if NeedsNoByte(s.st) {
      MovesEnd(s);
      MoveLogGrows(s);
      SettleLogGrows(Move(s));
    }
  }

  lemma BodyLogGrows(s: Core, b: byte, st: St, next: St)
    ensures Grows(s, InBody(s, b, st, next)) && Grows(s, InChunkSizeEnd(s, b))
    ensures IsHex(b) ==> Grows(s, ChunkSizeDigit(s, b))
  {
    hide MulAdd, AfterOverflow;
  }

  lemma NameStepLogGrows(g: Grammar, s: Core, b: byte)
    requires s.st.FieldWord? || s.st.Field? || s.st.FieldCo? || s.st.FieldColon? || s.st.FieldGeneral? || s.st.FieldOtherwise?
    ensures Grows(s, Step(g, s, b))
  {
    hide InField, InFieldWord, InFieldCo, InFieldColon, InFieldGeneral, InFieldOtherwise;
    FieldOtherwiseLogGrows(s, b);
    FieldLogGrows(s, if s.st.FieldWord? then s.st.word else On, b);
  }

  lemma ValueStepLogGrows(g: Grammar, s: Core, b: byte)
    requires s.st.Value? || s.st.ValueEnd? || s.st.ConnToken? || s.st.Conn? || s.st.ConnWord? || s.st.ConnWs?
    ensures Grows(s, Step(g, s, b))
  {
    hide InValue, InConn, InConnWord, InConnWs, InConnToken, InValueEnd;
    ValueLogGrows(s, b);
    ConnLogGrows(s, if s.st.ConnWord? then s.st.word else On, b);
  }

  lemma CodingStepLogGrows(g: Grammar, s: Core, b: byte)
    requires s.st.Length? || s.st.LengthWs? || s.st.TeChunked? || s.st.TeLast? || s.st.TeToken? || s.st.TeOws?
    ensures Grows(s, Step(g, s, b))
  {
    hide InLength, InLengthWs, InTeChunked, InTeLast, InTeToken, InTeOws;
    LengthLogGrows(s, b);
    TeTokenLogGrows(s, b);
    TeLogGrows(s, b);
  }

  lemma LineStepLogGrows(g: Grammar, s: Core, b: byte)
    requires s.st.Start? || s.st.Line? || s.st.Ext? || s.st.HeadersStart? || s.st.FieldStart? || s.st.DiscardWs? || s.st.DiscardLws?
          || s.st.ValueStart? || s.st.ValueLws?
    ensures Grows(s, Step(g, s, b))
  {
    hide InStart, InLine, InExt, InFieldStart, InDiscardWs, InDiscardLws, InValueStart, InValueLws;
    LineLogGrows(g, s, b);
    FieldStartLogGrows(s, b);
    ValueStartLogGrows(s, b);
    NextLineLogGrows(s, b);
  }

  lemma BodyStepLogGrows(g: Grammar, s: Core, b: byte)
    requires s.st.ChunkDigit? || s.st.ChunkSize? || s.st.ChunkSizeEnd? || s.st.ChunkStart? || s.st.ChunkData? || s.st.BodyStart? || s.st.Body?
    ensures Grows(s, Step(g, s, b))
  {
    hide ChunkSizeDigit, InChunkSizeEnd, InBody;
    BodyLogGrows(s, b, ChunkData, ChunkDataCr);
    BodyLogGrows(s, b, Body, BodyComplete);
  }

  lemma OtherStepLogGrows(g: Grammar, s: Core, b: byte)
    requires s.st.DiscardWsLf? || s.st.ValueLf? || s.st.HeadersLf? || s.st.ChunkSizeLf? || s.st.ChunkDataCr? || s.st.ChunkDataLf?
          || s.st.EofStart? || s.st.EofBody? || s.st.Closed? || NeedsNoByte(s.st) || ErrorOf(s) != 0
    ensures Grows(s, Step(g, s, b))
  {
  }

  lemma StepLogGrows(g: Grammar, s: Core, b: byte)
    ensures Grows(s, Step(g, s, b))
  {
    hide Step, Grows;
    if s.st.FieldWord? || s.st.Field? || s.st.FieldCo? || s.st.FieldColon? || s.st.FieldGeneral? || s.st.FieldOtherwise? {
      NameStepLogGrows(g, s, b);
    } else if s.st.Value? || s.st.ValueEnd? || s.st.ConnToken? || s.st.Conn? || s.st.ConnWord? || s.st.ConnWs? {
      ValueStepLogGrows(g, s, b);
    } else if s.st.Length? || s.st.LengthWs? || s.st.TeChunked? || s.st.TeLast? || s.st.TeToken? || s.st.TeOws? {
      CodingStepLogGrows(g, s, b);
    } else if s.st.Start? || s.st.Line? || s.st.Ext? || s.st.HeadersStart? || s.st.FieldStart? || s.st.DiscardWs? || s.st.DiscardLws?
           || s.st.ValueStart? || s.st.ValueLws? {
      LineStepLogGrows(g, s, b);
    } else if s.st.ChunkDigit? || s.st.ChunkSize? || s.st.ChunkSizeEnd? || s.st.ChunkStart? || s.st.ChunkData? || s.st.BodyStart? || s.st.Body? {
      BodyStepLogGrows(g, s, b);
    } else {
      OtherStepLogGrows(g, s, b);
    }
  }

  /** What the callbacks have seen is a prefix of what they will have seen. */
  lemma {:induction false} LogGrows(g: Grammar, s: Core, bytes: seq<byte>)
    ensures s.log <= Feed(g, s, bytes).log
    decreases |bytes|
  {
    hide Settle, Step;
    SettleLogGrows(s);
    if bytes != [] {
      StepLogGrows(g, Settle(s), bytes[0]);
      LogGrows(g, Step(g, Settle(s), bytes[0]), bytes[1..]);
    }
  }

  /* ---- chaining ---------------------------------------------------------------------------------- */

  lemma ByteFirst(g: Grammar, s: Core, rest: seq<byte>)
    requires rest != [] && !NeedsNoByte(s.st)
    ensures Feed(g, Step(g, s, rest[0]), rest[1..]) == Feed(g, s, rest)
  {
    SettledAlready(s);
  }

  /** Two states that do the same to the next byte have the same future. */
  lemma SameByte(g: Grammar, s: Core, t: Core, rest: seq<byte>)
    requires rest != [] && Step(g, Settle(s), rest[0]) == Step(g, Settle(t), rest[0])
    ensures Feed(g, s, rest) == Feed(g, t, rest)
  {
  }

  lemma MoveFirst(g: Grammar, s: Core, rest: seq<byte>)
    requires NeedsNoByte(s.st)
    ensures Feed(g, Move(s), rest) == Feed(g, s, rest)
  {
    SettleMove(s);
  }

  /** A failure that is still to be reported. */
  lemma FailureFeeds(g: Grammar, s: Core, code: Errno, rest: seq<byte>)
    requires s.st == GoFail(code) || s.st == Failed(code)
    ensures Feed(g, s, rest) == Fail(s, code)
  {
    if s.st.GoFail? {
      MoveFirst(g, s, rest);
    }
    FailedStays(g, Fail(s, code), rest);
  }

  /** Nothing is read after an upgrade. */
  lemma {:induction false} UpgradeFeeds(g: Grammar, s: Core, rest: seq<byte>)
    requires s.st.GoUpgrade? || s.st.Upgraded?
    ensures Feed(g, s, rest) == s.(st := Upgraded)
    decreases |rest|
  {
    hide Move, Step;
    if s.st.GoUpgrade? {
      UpgradeMove(s);
      SettleMove(s);
    }
    SettledAlready(s.(st := Upgraded));
    if rest != [] {
      UpgradeReadsNothing(g, s.(st := Upgraded), rest[0]);
      UpgradeFeeds(g, s.(st := Upgraded), rest[1..]);
    }
  }

  lemma UpgradeMove(s: Core)
    requires s.st.GoUpgrade?
    ensures Move(s) == s.(st := Upgraded)
  {
  }

  lemma UpgradeReadsNothing(g: Grammar, s: Core, b: byte)
    requires s.st.Upgraded?
    ensures Step(g, s, b) == s
  {
  }

  lemma {:induction false} ErrorStays(g: Grammar, s: Core, rest: seq<byte>)
    requires ErrorOf(s) != 0
    ensures Feed(g, s, rest) == s
    decreases |rest|
  {
    hide Move;
    SettledAlready(s);
    if rest != [] {
      ErrorStays(g, s, rest[1..]);
    }
  }

  lemma {:induction false} FeedIsSettled(g: Grammar, s: Core, bytes: seq<byte>)
    ensures Settle(Feed(g, s, bytes)) == Feed(g, s, bytes)
    decreases |bytes|
  {
    hide Settle, Step;
    SettleTwice(s);
    if bytes != [] {
      FeedIsSettled(g, Step(g, Settle(s), bytes[0]), bytes[1..]);
    }
  }

  lemma FlattenNext(pieces: seq<seq<byte>>, n: nat)
    requires n < |pieces|
    ensures Flatten(pieces[..n + 1]) == Flatten(pieces[..n]) + pieces[n]
  {
    assert pieces[..n + 1] == pieces[..n] + [pieces[n]];
    FlattenConcat(pieces[..n], [pieces[n]]);
    assert Flatten([pieces[n]]) == pieces[n] + Flatten([]);
  }

  /** Feeding one more piece. */
  lemma FeedNext(g: Grammar, start: Core, pieces: seq<seq<byte>>, n: nat, s: Core)
    requires n < |pieces| && Settle(s) == Feed(g, start, Flatten(pieces[..n]))
    ensures Feed(g, s, pieces[n]) == Feed(g, start, Flatten(pieces[..n + 1]))
  {
    hide Feed, Settle, Flatten;
    FlattenNext(pieces, n);
    FeedSettled(g, s, pieces[n]);
    FeedConcat(g, start, Flatten(pieces[..n]), pieces[n]);
  }

  /** After an error the rest of the stream does not matter. */
  lemma ErrorIsFinal(g: Grammar, start: Core, pieces: seq<seq<byte>>, n: nat)
    requires n <= |pieces| && ErrorOf(Feed(g, start, Flatten(pieces[..n]))) != 0
    ensures Feed(g, start, Flatten(pieces)) == Feed(g, start, Flatten(pieces[..n]))
  {
    hide Feed, Flatten;
    assert pieces == pieces[..n] + pieces[n..];
    FlattenConcat(pieces[..n], pieces[n..]);
    FeedConcat(g, start, Flatten(pieces[..n]), Flatten(pieces[n..]));
    ErrorStays(g, Feed(g, start, Flatten(pieces[..n])), Flatten(pieces[n..]));
  }

  /* ---- a step does not ask how its state was reached ---------------------------------------------- */

  lemma FieldForgets(s: Core, st: St, b: byte)
    ensures InFieldGeneral(s.(st := st), b) == InFieldGeneral(s, b)
    ensures InFieldOtherwise(s.(st := st), b) == InFieldOtherwise(s, b)
  {
  }

  lemma FieldStartForgets(s: Core, st: St, b: byte)
    ensures InFieldStart(s.(st := st), b) == InFieldStart(s, b) && InField(s.(st := st), b) == InField(s, b)
  {
    hide InFieldGeneral;
    FieldForgets(s.(hs := General), st, b);
  }

  lemma ValueForgets(s: Core, st: St, b: byte)
    ensures InValueEnd(s.(st := st), b) == InValueEnd(s, b) && InValue(s.(st := st), b) == InValue(s, b)
  {
  }

  lemma ConnForgets(s: Core, st: St, b: byte)
    ensures InConnToken(s.(st := st), b) == InConnToken(s, b) && InConn(s.(st := st), b) == InConn(s, b)
  {
    hide InValueEnd, LowerByte;
    ValueForgets(s, st, b);
  }

  lemma LengthForgets(s: Core, st: St, b: byte)
    ensures InLengthWs(s.(st := st), b) == InLengthWs(s, b) && InLength(s.(st := st), b) == InLength(s, b)
  {
    hide InValueEnd, MulAdd, AfterOverflow;
    ValueForgets(s.(flags := s.flags.(contentLength := true)), st, b);
  }

  lemma CodingForgets(s: Core, st: St, b: byte)
    ensures InTeToken(s.(st := st), b) == InTeToken(s, b) && InTeChunked(s.(st := st), b) == InTeChunked(s, b)
  {
    hide InValue, OrBit5, Letters;
    ValueForgets(s.(hs := General), st, b);
    ValueForgets(s.(hs := General, index := 0), st, b);
  }

  lemma ValueStartForgets(s: Core, st: St, b: byte)
    ensures InValueStart(s.(st := st), b) == InValueStart(s, b)
  {
    hide InConn, InLength, InTeChunked, InValue;
    var t := s.(st := st);
    if s.hs.Connection? {
      ConnForgets(s, st, b);
    } else if s.hs.ContentLength? {
      LengthForgets(s, st, b);
    } else if s.hs.TransferEncoding? {
      var coding := s.(flags := s.flags.(transferEncoding := true, chunked := false));
      CodingForgets(coding, st, b);
      assert t.(flags := t.flags.(transferEncoding := true, chunked := false)) == coding.(st := st);
    } else if s.hs.Upgrade? {
      var asked := s.(flags := s.flags.(upgrade := true), hs := General);
      ValueForgets(asked, st, b);
      assert t.(flags := t.flags.(upgrade := true), hs := General) == asked.(st := st);
    } else {
      ValueForgets(s, st, b);
    }
  }

  lemma ChunkSizeEndForgets(s: Core, st: St, b: byte)
    ensures InChunkSizeEnd(s.(st := st), b) == InChunkSizeEnd(s, b)
  {
  }

  lemma BeginSettles(s: Core)
    requires s.st.OnReset? || s.st.OnBegin?
    ensures Settle(s).st.Line?
  {
    if s.st.OnReset? {
      SettleMove(s);
      SettleMove(Move(s));
    } else {
      SettleMove(s);
    }
  }

  /* ---- keywords, in any of the three kinds of match states ---------------------------------------- */

  predicate Matching(st: St) {
    st.FieldWord? || st.ConnWord? || st.TeChunked?
  }

  function Keyword(st: St): Word
    requires Matching(st)
  {
    if st.TeChunked? then Chunked else st.word
  }

  /** How the matcher of a state folds the case of a byte. */
  function Folded(st: St, b: byte): byte {
    if st.TeChunked? then OrBit5(b) else LowerByte(b)
  }

  lemma MatchByte(g: Grammar, s: Core, b: byte)
    requires Matching(s.st) && s.index + 1 < |Letters(Keyword(s.st))| && Folded(s.st, b) == Letters(Keyword(s.st))[s.index]
    ensures Step(g, s, b) == Into(s.(index := s.index + 1), if s.st.FieldWord? then FieldSpan else ValueSpan, b, s.st)
  {
    hide Letters, LowerByte, OrBit5;
  }

  predicate Matches(st: St, index: nat, bytes: seq<byte>)
    requires Matching(st)
  {
    && index + |bytes| < |Letters(Keyword(st))|
    && forall i :: 0 <= i < |bytes| ==> Folded(st, bytes[i]) == Letters(Keyword(st))[index + i]
  }

  /** A run of matching bytes that does not end the keyword only advances the index. */
  lemma {:induction false} MatchRun(g: Grammar, s: Core, bytes: seq<byte>, rest: seq<byte>)
    requires Matching(s.st) && Matches(s.st, s.index, bytes)
    ensures var kind := if s.st.FieldWord? then FieldSpan else ValueSpan;
      Feed(g, s, bytes + rest) == Feed(g, s.(index := s.index + |bytes|, log := s.log + Spans(kind, bytes)), rest)
    decreases |bytes|
  {
    hide Feed, Step, Letters, Keyword, Folded;
    var kind := if s.st.FieldWord? then FieldSpan else ValueSpan;
    if bytes == [] {
      assert bytes + rest == rest;
      assert s.log + Spans(kind, bytes) == s.log;
    } else {
      var b, more := bytes[0], bytes[1..];
      assert (bytes + rest)[1..] == more + rest;
      MatchByte(g, s, b);
      var t := Into(s.(index := s.index + 1), kind, b, s.st);
      ByteFirst(g, s, bytes + rest);
      forall i | 0 <= i < |more|
        ensures Folded(t.st, more[i]) == Letters(Keyword(t.st))[t.index + i]
      {
        assert more[i] == bytes[i + 1];
      }
      MatchRun(g, t, more, rest);
      assert t.log + Spans(kind, more) == s.log + Spans(kind, bytes);
    }
  }

  lemma SpansOfNothing(kind: SpanKind, data: seq<byte>, p: nat)
    requires p <= |data|
    ensures Spans(kind, data[p..p]) == []
  {
  }

  lemma SpanOfOne(kind: SpanKind, data: seq<byte>, p: nat)
    requires p < |data|
    ensures Spans(kind, data[p..p + 1]) == [SpanByte(kind, data[p])]
  {
  }

  lemma SpansJoin(kind: SpanKind, data: seq<byte>, a: nat, p: nat, q: nat)
    requires a <= p <= q <= |data|
    ensures Spans(kind, data[a..q]) == Spans(kind, data[a..p]) + Spans(kind, data[p..q])
  {
    assert data[a..q] == data[a..p] + data[p..q];
    SpansConcat(kind, data[a..p], data[p..q]);
  }

  /** The last letter of a keyword, or a letter that does not match. */
  lemma FieldWordEnds(g: Grammar, s: Core, b: byte)
    requires s.st.FieldWord? && s.index < |Letters(s.st.word)|
    ensures Folded(s.st, b) != Letters(s.st.word)[s.index] ==> Step(g, s, b) == InFieldGeneral(s.(index := 0, hs := General), b)
    ensures Folded(s.st, b) == Letters(s.st.word)[s.index] && s.index + 1 == |Letters(s.st.word)| ==>
      Step(g, s, b) == WordField(Into(s.(index := 0), FieldSpan, b, Field), s.st.word)
  {
    hide Letters, LowerByte, InFieldGeneral, WordField;
  }

  lemma ConnWordEnds(g: Grammar, s: Core, b: byte)
    requires s.st.ConnWord? && s.index < |Letters(s.st.word)|
    ensures Folded(s.st, b) != Letters(s.st.word)[s.index] ==> Step(g, s, b) == InConnToken(s.(index := 0), b)
    ensures Folded(s.st, b) == Letters(s.st.word)[s.index] && s.index + 1 == |Letters(s.st.word)| ==>
      Step(g, s, b) == Into(s.(index := 0, hs := WordToken(s.st.word)), ValueSpan, b, ConnWs)
  {
    hide Letters, LowerByte, InConnToken, WordToken;
  }

  lemma CodingWordEnds(g: Grammar, s: Core, b: byte)
    requires s.st.TeChunked? && s.index < |Letters(Chunked)|
    ensures Folded(s.st, b) != Letters(Chunked)[s.index] ==> Step(g, s, b) == InTeToken(s.(index := 0), b)
    ensures Folded(s.st, b) == Letters(Chunked)[s.index] && s.index + 1 == |Letters(Chunked)| ==>
      Step(g, s, b) == Into(s.(index := 0), ValueSpan, b, TeLast)
  {
    hide Letters, OrBit5, InTeToken;
  }

  /* ---- steps taken in two parts -------------------------------------------------------------------- */

  /** A name that is not one of the known headers. */
  lemma NameHops(g: Grammar, s: Core, b: byte)
    requires
      || (s.st.Field? && LowerByte(b) !in {99, 112, 116, 117}) || (s.st.FieldCo? && LowerByte(b) !in {110, 116})
      || (s.st.FieldColon? && b != SP && b != COLON)
    ensures Step(g, s, b) == Step(g, s.(hs := General, st := FieldGeneral), b)
  {
    hide LowerByte, InFieldGeneral;
    FieldForgets(s.(hs := General), FieldGeneral, b);
    assert Step(g, s, b) == InFieldGeneral(s.(hs := General), b);
  }

  lemma NameWordHops(g: Grammar, s: Core, b: byte)
    requires s.st.FieldWord? && s.index < |Letters(s.st.word)| && Folded(s.st, b) != Letters(s.st.word)[s.index]
    ensures Step(g, s, b) == Step(g, s.(index := 0, hs := General, st := FieldGeneral), b)
  {
    hide Letters, Folded, InFieldGeneral;
    FieldWordEnds(g, s, b);
    FieldForgets(s.(index := 0, hs := General), FieldGeneral, b);
  }

  lemma NameEndHops(g: Grammar, s: Core, b: byte)
    requires s.st.FieldGeneral? && !IsToken(b)
    ensures Step(g, s, b) == Step(g, s.(st := FieldOtherwise), b)
  {
    hide IsToken;
  }

  lemma NameStartHops(g: Grammar, s: Core, b: byte)
    ensures s.st.HeadersStart? && b != SP ==> Step(g, s, b) == Step(g, s.(st := FieldStart), b)
    ensures s.st.FieldStart? && b != LF && b != CR && b != COLON ==> Step(g, s, b) == Step(g, s.(st := Field), b)
  {
    hide InField;
    FieldStartForgets(s, FieldStart, b);
    FieldStartForgets(s, Field, b);
  }

  lemma BlanksHop(g: Grammar, s: Core, b: byte)
    requires s.st.DiscardWs? && !IsBlank(b) && b != LF && b != CR
    ensures Step(g, s, b) == Step(g, s.(st := ValueStart), b)
  {
    hide InValueStart;
    ValueStartForgets(s, ValueStart, b);
  }

  /** The first byte of a value is read as the header's name says. */
  lemma ValueHops(g: Grammar, s: Core, b: byte)
    requires s.st.ValueStart? && !s.hs.ContentLength? && !s.hs.TransferEncoding?
    ensures Step(g, s, b) == Step(g, if s.hs.Connection? then s.(st := Conn)
                                     else if s.hs.Upgrade? then s.(st := Value, flags := s.flags.(upgrade := true), hs := General)
                                     else s.(st := Value), b)
  {
    hide InConn, InValue;
    if s.hs.Connection? {
      ConnForgets(s, Conn, b);
    } else if s.hs.Upgrade? {
      ValueForgets(s.(flags := s.flags.(upgrade := true), hs := General), Value, b);
    } else {
      ValueForgets(s, Value, b);
    }
  }

  lemma LengthHops(g: Grammar, s: Core, b: byte)
    ensures s.st.ValueStart? && s.hs.ContentLength? && !s.flags.contentLength ==> Step(g, s, b) == Step(g, s.(st := Length), b)
    ensures s.st.Length? && !IsDigit(b) ==> Step(g, s, b) == Step(g, s.(st := LengthWs), b)
  {
    hide InLengthWs, MulAdd, AfterOverflow;
    LengthForgets(s, Length, b);
    LengthForgets(s, LengthWs, b);
  }

  lemma CodingHops(g: Grammar, s: Core, b: byte)
    requires s.st.ValueStart? && s.hs.TransferEncoding? && !s.flags.chunked
    ensures Step(g, s, b) == Step(g, s.(st := TeChunked, flags := s.flags.(transferEncoding := true, chunked := false)), b)
  {
    hide InTeChunked;
    CodingForgets(s.(flags := s.flags.(transferEncoding := true, chunked := false)), TeChunked, b);
  }

  lemma NextCodingHops(g: Grammar, s: Core, b: byte)
    ensures s.st.TeOws? && !IsBlank(b) ==> Step(g, s, b) == Step(g, s.(st := TeChunked), b)
    ensures s.st.TeLast? && b !in {LF, CR, SP, COMMA} ==> Step(g, s, b) == Step(g, s.(st := TeToken), b)
  {
    hide InTeChunked, InTeToken, InValueEnd;
    CodingForgets(s, TeChunked, b);
    CodingForgets(s, TeToken, b);
  }

  lemma CodingWordHops(g: Grammar, s: Core, b: byte)
    requires s.st.TeChunked? && s.index < |Letters(Chunked)| && Folded(s.st, b) != Letters(Chunked)[s.index]
    ensures Step(g, s, b) == Step(g, s.(index := 0, st := TeToken), b)
  {
    hide Letters, Folded, InTeToken;
    CodingWordEnds(g, s, b);
    CodingForgets(s.(index := 0), TeToken, b);
  }

  lemma ConnHops(g: Grammar, s: Core, b: byte)
    ensures s.st.Conn? && !IsBlank(b) && LowerByte(b) !in {99, 107, 117} ==> Step(g, s, b) == Step(g, s.(st := ConnToken), b)
    ensures s.st.ConnWs? && b !in {LF, CR, SP, COMMA} ==> Step(g, s, b) == Step(g, s.(st := ConnToken, hs := General), b)
  {
    hide InConnToken, LowerByte, InValueEnd, ApplyToken;
    ConnForgets(s, ConnToken, b);
    ConnForgets(s.(hs := General), ConnToken, b);
  }

  lemma ConnWordHops(g: Grammar, s: Core, b: byte)
    requires s.st.ConnWord? && s.index < |Letters(s.st.word)| && Folded(s.st, b) != Letters(s.st.word)[s.index]
    ensures Step(g, s, b) == Step(g, s.(index := 0, st := ConnToken), b)
  {
    hide Letters, Folded, InConnToken;
    ConnWordEnds(g, s, b);
    ConnForgets(s.(index := 0), ConnToken, b);
  }

  /** The byte that ends a value is judged once, wherever in the value it comes. */
  lemma ValueEndHops(g: Grammar, s: Core, b: byte)
    requires (s.st.Value? && !IsFieldValue(b)) || (s.st.ConnToken? && b != COMMA && !IsFieldValue(b)) || (s.st.ConnWs? && b in {LF, CR})
    ensures Step(g, s, b) == Step(g, s.(st := ValueEnd), b)
  {
    hide InValueEnd, InConnToken, IsFieldValue;
    ValueForgets(s, ValueEnd, b);
    if s.st.ConnToken? {
      assert InConnToken(s, b) == InValueEnd(s, b) by { ConnTokenEnds(s, b); }
    }
  }

  lemma ConnTokenEnds(s: Core, b: byte)
    requires b != COMMA && !IsFieldValue(b)
    ensures InConnToken(s, b) == InValueEnd(s, b)
  {
  }

  lemma LengthEndHops(g: Grammar, s: Core, b: byte)
    requires s.st.LengthWs? && b in {LF, CR}
    ensures Step(g, s, b) == Step(g, s.(st := ValueEnd, flags := s.flags.(contentLength := true)), b)
  {
    hide InValueEnd;
    ValueForgets(s.(flags := s.flags.(contentLength := true)), ValueEnd, b);
  }

  lemma CodingEndHops(g: Grammar, s: Core, b: byte)
    ensures s.st.TeLast? && b in {LF, CR} ==> Step(g, s, b) == Step(g, s.(st := ValueEnd, hs := TokenChunked), b)
    ensures s.st.TeToken? && b != COMMA && !IsFieldValue(b) ==> Step(g, s, b) == Step(g, s.(st := Value, hs := General), b)
  {
    hide InValueEnd, InValue, IsFieldValue;
    ValueForgets(s.(hs := TokenChunked), ValueEnd, b);
    ValueForgets(s.(hs := General), Value, b);
  }

  lemma ChunkSizeHops(g: Grammar, s: Core, b: byte)
    requires s.st.ChunkSize? && !IsHex(b)
    ensures Step(g, s, b) == Step(g, s.(st := ChunkSizeEnd), b)
  {
    hide InChunkSizeEnd;
    ChunkSizeEndForgets(s, ChunkSizeEnd, b);
  }

  lemma BodyHops(g: Grammar, s: Core, b: byte)
    requires s.st.BodyStart?
    ensures Step(g, s, b) == Step(g, s.(st := Body), b)
  {
    hide InBody;
    BodyForgets(s, Body, b, Body, BodyComplete);
  }

  lemma ChunkHops(g: Grammar, s: Core, b: byte)
    requires s.st.ChunkStart?
    ensures Step(g, s, b) == Step(g, s.(st := ChunkData), b)
  {
    hide InBody;
    BodyForgets(s, ChunkData, b, ChunkData, ChunkDataCr);
  }

  lemma EofHops(g: Grammar, s: Core, b: byte)
    requires s.st.EofStart?
    ensures Step(g, s, b) == Step(g, s.(st := EofBody), b)
  {
  }

  lemma BodyForgets(s: Core, st: St, b: byte, inside: St, beyond: St)
    ensures InBody(s.(st := st), b, inside, beyond) == InBody(s, b, inside, beyond)
  {
  }
}
