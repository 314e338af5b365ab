/** Whole requests, from the first byte of the request line to the last byte of the body: what the
    callbacks are told, when the next request may follow on the same connection, and streams of many
    requests (sections 6 and 9.3 of RFC 9112). */
module HttpRequests {
  import opened Bytes
  import opened HttpSpec
  import opened HttpBodies
  import opened HttpSteps
  import opened HttpMessages
  import opened HttpHeaders
  import opened HttpFields
  import opened HttpEvents

  /* ---- requests --------------------------------------------------------------------------------------- */

  datatype Body = NoBody | Known(data: seq<byte>) | InChunks(chunks: seq<Chunk>, zeros: seq<byte>, trailers: seq<Line>)

  /** A request: its line, with what the line recogniser makes of it, its header lines and its body. */
  datatype Message = Message(line: seq<byte>, connect: bool, major: nat, minor: nat, lines: seq<Line>, body: Body)

  /** The recogniser takes the line, and no sooner than at its end. */
  ghost predicate IsMessageLine(g: Grammar, q: Message) {
    && q.line != [] && q.line[0] != CR && q.line[0] != LF
    && g.line(q.line) == Done(q.connect, q.major, q.minor)
    && forall i :: 0 < i < |q.line| ==> g.line(q.line[..i]).More?
  }

  function HeaderEffect(q: Message): Effect {
    SectionEffect(NO_FLAGS, 0, q.lines)
  }

  /** The flags when the message is over: trailers may set some. */
  function FinalEffect(q: Message): Effect {
    match HeaderEffect(q)
    case Refused(code) => Refused(code)
    case Read(f, n) => if q.body.InChunks? then SectionEffect(f.(trailing := true), 0, q.body.trailers) else Read(f, n)
  }

  ghost predicate AreChunks(cs: seq<Chunk>) {
    forall i :: 0 <= i < |cs| ==> IsChunk(cs[i])
  }

  /** The request has the body that its headers announce; CONNECT has none. */
  ghost predicate HasItsBody(q: Message) {
    var e := HeaderEffect(q);
    && e.Read? && FinalEffect(q).Read?
    && match q.body
       case NoBody => q.connect || (!e.flags.chunked && e.length == 0 && (e.flags.transferEncoding ==> e.flags.upgrade && e.flags.connUpgrade))
       case Known(d) => !q.connect && e.flags.contentLength && |d| == e.length && 0 < |d|
       case InChunks(cs, zeros, trailers) => !q.connect && e.flags.chunked && AreChunks(cs) && IsZero(zeros) && AreLines(trailers)
  }

  ghost predicate IsMessage(g: Grammar, q: Message) {
    IsMessageLine(g, q) && AreLines(q.lines) && HasItsBody(q)
  }

  function BodyBytes(b: Body): seq<byte> {
    match b
    case NoBody => []
    case Known(d) => d
    case InChunks(cs, zeros, trailers) => AllChunkBytes(cs) + (zeros + (CRLF + SectionBytes(trailers)))
  }

  function MessageBytes(q: Message): seq<byte> {
    q.line + (SectionBytes(q.lines) + BodyBytes(q.body))
  }

  function BodyEvents(b: Body): seq<Event> {
    match b
    case NoBody => []
    case Known(d) => Spans(BodySpan, d)
    case InChunks(cs, _, trailers) => AllChunkEvents(cs) + [ChunkHeader(0)] + SectionEvents(trailers) + [ChunkComplete]
  }

  /** A connection that has already had a request is reset first. */
  function BeginEvents(seen: bool): seq<Event> {
    (if seen then [Reset] else []) + [MessageBegin]
  }

  function MessageEvents(seen: bool, q: Message): seq<Event> {
    BeginEvents(seen) + SectionEvents(q.lines) + [HeadersComplete] + BodyEvents(q.body) + [MessageComplete]
  }

  /* ---- what may follow ------------------------------------------------------------------------------------ */

  /** A Connection header of the section lists this option. */
  ghost predicate SectionLists(ls: seq<Line>, option: seq<byte>) {
    exists i :: 0 <= i < |ls| && LineLists(ls[i], option)
  }

  predicate LineLists(l: Line, option: seq<byte>) {
    KindOf(l.name).Connection? && Lists(l.value, option)
  }

  function Trailers(q: Message): seq<Line> {
    if q.body.InChunks? then q.body.trailers else []
  }

  ghost predicate Wants(q: Message, option: seq<byte>) {
    SectionLists(q.lines, option) || SectionLists(Trailers(q), option)
  }

  /** HTTP/1.1 goes on unless it says `close`, HTTP/1.0 only if it says `keep-alive`. */
  ghost predicate Persists(q: Message) {
    if q.major > 0 && q.minor > 0 then !Wants(q, CLOSE) else Wants(q, KEEP_ALIVE)
  }

  /** The header section asks for an upgrade: an Upgrade header with a value, and `upgrade` in Connection. */
  ghost predicate AsksToUpgrade(q: Message) {
    SectionAsks(q.lines) && SectionLists(q.lines, UPGRADE)
  }

  ghost predicate SectionAsks(ls: seq<Line>) {
    exists i :: 0 <= i < |ls| && Asks(ls[i])
  }

  predicate Asks(l: Line) {
    KindOf(l.name).Upgrade? && l.value != []
  }

  lemma {:induction false} SectionSets(f: Flags, n: nat, ls: seq<Line>)
    requires !f.contentLength ==> n == 0
    ensures var e := SectionEffect(f, n, ls);
      e.Read? ==>
        && (e.flags.close <==> f.close || SectionLists(ls, CLOSE))
        && (e.flags.keepAlive <==> f.keepAlive || SectionLists(ls, KEEP_ALIVE))
        && (e.flags.connUpgrade <==> f.connUpgrade || SectionLists(ls, UPGRADE))
        && (e.flags.upgrade <==> f.upgrade || SectionAsks(ls))
        && e.flags.trailing == f.trailing && (!e.flags.contentLength ==> e.length == 0)
    decreases |ls|
  {
    hide LineEffect, LineLists, SectionLists, Asks, SectionAsks;
    if ls == [] {
      NoneLists(CLOSE);
      NoneLists(KEEP_ALIVE);
      NoneLists(UPGRADE);
      NoneAsks();
    } else {
      var e := LineEffect(f, n, ls[0]);
      if e.Read? {
        LineSets(f, n, ls[0]);
        EffectKeeps(f, n, ls[0]);
        SectionSets(e.flags, e.length, ls[1..]);
        FirstLists(ls, CLOSE);
        FirstLists(ls, KEEP_ALIVE);
        FirstLists(ls, UPGRADE);
        FirstAsks(ls);
      }
    }
  }

  lemma NoneLists(option: seq<byte>)
    ensures !SectionLists([], option)
  {
  }

  lemma NoneAsks()
    ensures !SectionAsks([])
  {
  }

  lemma FirstLists(ls: seq<Line>, option: seq<byte>)
    requires ls != []
    ensures SectionLists(ls, option) <==> LineLists(ls[0], option) || SectionLists(ls[1..], option)
  {
    hide LineLists;
    if SectionLists(ls, option) {
      var i :| 0 <= i < |ls| && LineLists(ls[i], option);
      assert i > 0 ==> ls[i] == ls[1..][i - 1];
    }
    if SectionLists(ls[1..], option) {
      var i :| 0 <= i < |ls[1..]| && LineLists(ls[1..][i], option);
      assert ls[i + 1] == ls[1..][i];
    }
  }

  lemma FirstAsks(ls: seq<Line>)
    requires ls != []
    ensures SectionAsks(ls) <==> Asks(ls[0]) || SectionAsks(ls[1..])
  {
    hide Asks;
    if SectionAsks(ls) {
      var i :| 0 <= i < |ls| && Asks(ls[i]);
      assert i > 0 ==> ls[i] == ls[1..][i - 1];
    }
    if SectionAsks(ls[1..]) {
      var i :| 0 <= i < |ls[1..]| && Asks(ls[1..][i]);
      assert ls[i + 1] == ls[1..][i];
    }
  }

  lemma LineSets(f: Flags, n: nat, l: Line)
    ensures var e := LineEffect(f, n, l);
      e.Read? ==>
        && (e.flags.close <==> f.close || LineLists(l, CLOSE))
        && (e.flags.keepAlive <==> f.keepAlive || LineLists(l, KEEP_ALIVE))
        && (e.flags.connUpgrade <==> f.connUpgrade || LineLists(l, UPGRADE))
        && (e.flags.upgrade <==> f.upgrade || Asks(l))
  {
    hide KindOf, Says, CodingsFrom, IsLength, LengthOf, SaidFrom, ElementsFrom;
    KindsAreFew(l.name);
    SaidIsListed(f, [], l.value);
  }

  /* ---- the request line and the headers ------------------------------------------------------------------ */

  /** Ready for the first byte of a request. */
  predicate Fresh(s: Core) {
    s.st.Start? && s.index == 0 && s.length == 0 && s.flags == NO_FLAGS
  }

  lemma {:induction false} LineReads(g: Grammar, s: Core, q: Message, k: nat)
    requires k < |q.line| && s.st.Line? && s.token == q.line[..k] && IsMessageLine(g, q)
    ensures Feed(g, s, q.line[k..]) ==
            s.(st := HeadersStart, token := q.line, connect := q.connect, major := q.major, minor := q.minor)
    decreases |q.line| - k
  {
    hide Feed, Settle;
    var rest, b := q.line[k..], q.line[k];
    assert rest[1..] == q.line[k + 1..] && q.line[..k + 1] == q.line[..k] + [b];
    ByteFirst(g, s, rest);
    if k + 1 == |q.line| {
      assert q.line[..k + 1] == q.line && rest[1..] == [];
      FeedNothing(g, Step(g, s, b));
      SettledAlready(Step(g, s, b));
    } else {
      LineReads(g, s.(token := q.line[..k + 1]), q, k + 1);
    }
  }

  lemma RequestBegins(g: Grammar, s: Core, q: Message)
    requires Fresh(s) && IsMessageLine(g, q)
    ensures Feed(g, s, q.line) ==
            s.(st := HeadersStart, token := q.line, connect := q.connect, major := q.major, minor := q.minor,
               log := s.log + BeginEvents(s.seen))
  {
    hide Feed, Settle, Step;
    var t := s.(st := St.Line, token := [], log := s.log + BeginEvents(s.seen));
    StartSteps(g, s, t, q.line[0]);
    SettledAlready(s);
    SettledAlready(t);
    SameByte(g, s, t, q.line);
    assert q.line[0..] == q.line;
    LineReads(g, t, q, 0);
  }

  lemma StartSteps(g: Grammar, s: Core, t: Core, b: byte)
    requires s.st.Start? && b != CR && b != LF && t == s.(st := St.Line, token := [], log := s.log + BeginEvents(s.seen))
    ensures Step(g, s, b) == Step(g, t, b)
  {
    hide InLine, Settle;
    var u := s.(st := if s.seen then OnReset else OnBegin);
    BeginTells(u);
    var first := if s.seen then [Reset] else [];
    assert s.log + first + [MessageBegin] == s.log + BeginEvents(s.seen);
    assert Settle(u) == t;
  }

  lemma BeginTells(s: Core)
    requires s.st.OnReset? || s.st.OnBegin?
    ensures Settle(s) == s.(st := St.Line, token := [], log := s.log + (if s.st.OnReset? then [Reset] else []) + [MessageBegin])
  {
    hide Settle;
    if s.st.OnReset? {
      SettleMove(s);
      SettleMove(Move(s));
      SettledAlready(Move(Move(s)));
    } else {
      SettleMove(s);
      SettledAlready(Move(s));
      assert s.log + [] + [MessageBegin] == s.log + [MessageBegin];
    }
  }

  /** The state after the headers, before the body. */
  function AfterSection(s: Core, q: Message, hs: HeaderKind, f: Flags, n: nat): Core {
    s.(st := AfterHeaders, token := q.line, connect := q.connect, major := q.major, minor := q.minor, hs := hs, flags := f, length := n,
       upgrade := (f.upgrade && f.connUpgrade) || q.connect, log := s.log + (BeginEvents(s.seen) + SectionEvents(q.lines) + [HeadersComplete]))
  }

  lemma HeadersRead(g: Grammar, s: Core, q: Message) returns (hs: HeaderKind)
    requires Fresh(s) && IsMessageLine(g, q) && AreLines(q.lines)
    ensures var r, e := Feed(g, s, q.line + SectionBytes(q.lines)), HeaderEffect(q);
      if e.Refused? then r.st == Failed(e.code) else r == Settle(AfterSection(s, q, hs, e.flags, e.length))
  {
    hide Feed, Settle, SectionEffect, SectionBytes, SectionEvents;
    RequestBegins(g, s, q);
    FeedConcat(g, s, q.line, SectionBytes(q.lines));
    var t := Feed(g, s, q.line);
    hs := SectionMeans(g, t, q.lines);
    var e := HeaderEffect(q);
    if e.Read? {
      var u := t.(st := HeadersDone, hs := hs, flags := e.flags, length := e.length, log := t.log + SectionEvents(q.lines));
      SettleMove(u);
      assert u.log + [HeadersComplete] == s.log + (BeginEvents(s.seen) + SectionEvents(q.lines) + [HeadersComplete]);
    }
  }

  /* ---- bodies and ends ------------------------------------------------------------------------------------- */

  /** What a section that is not refused cannot say. */
  predicate Framing(f: Flags, n: nat) {
    (f.chunked ==> f.transferEncoding) && !(f.contentLength && f.transferEncoding) && (!f.contentLength ==> n == 0)
  }

  lemma {:induction false} SectionFrames(f: Flags, n: nat, ls: seq<Line>)
    requires Framing(f, n)
    ensures var e := SectionEffect(f, n, ls); e.Read? ==> Framing(e.flags, e.length)
    decreases |ls|
  {
    hide LineEffect;
    if ls != [] {
      LineFrames(f, n, ls[0]);
      var e := LineEffect(f, n, ls[0]);
      if e.Read? {
        SectionFrames(e.flags, e.length, ls[1..]);
      }
    }
  }

  lemma LineFrames(f: Flags, n: nat, l: Line)
    requires Framing(f, n)
    ensures var e := LineEffect(f, n, l); e.Read? ==> Framing(e.flags, e.length)
  {
    hide KindOf, CodingsFrom, IsLength, LengthOf, SaidFrom;
    SaidFromKeeps(f, [], l.value);
  }

  lemma EndSettles(s: Core)
    requires s.st == AtEnd(s)
    ensures Settle(s) ==
      if s.upgrade then s.(st := Upgraded)
      else if ShouldKeepAlive(Request, s.flags, false, s.major, s.minor) then s.(st := Start, flags := NO_FLAGS, length := 0, seen := true)
      else s.(st := Closed, flags := NO_FLAGS)
  {
    hide ShouldKeepAlive, Settle;
    SettleMove(s);
    SettledAlready(Move(s));
  }

  /** How a message ends whose last flags are f. */
  function Ended(s: Core, f: Flags, events: seq<Event>): Core {
    var t := s.(log := s.log + events);
    if s.upgrade then t.(st := Upgraded, length := 0, flags := f)
    else if ShouldKeepAlive(Request, f, false, s.major, s.minor) then t.(st := Start, flags := NO_FLAGS, length := 0, seen := true)
    else t.(st := Closed, flags := NO_FLAGS, length := 0)
  }

  /** Without a body: the message is complete, and an upgrade begins if it was asked for. */
  lemma NoBodyEnds(s: Core)
    requires s.st.AfterHeaders? && (s.connect ==> s.upgrade)
    requires s.connect || (!s.flags.chunked && s.length == 0 && (s.flags.transferEncoding ==> s.upgrade))
    ensures Settle(s) == Settle(s.(st := AtEnd(s), log := s.log + [MessageComplete]))
  {
    hide Settle;
    var next := if s.upgrade then UpgradeComplete else NoBodyComplete;
    assert Move(s) == s.(st := next) by {
      NoBodyKind(s);
    }
    SettleMove(s);
    SettleMove(s.(st := next));
  }

  lemma NoBodyKind(s: Core)
    requires s.connect ==> s.upgrade
    requires s.connect || (!s.flags.chunked && s.length == 0 && (s.flags.transferEncoding ==> s.upgrade))
    ensures AfterHeadersComplete(Request, s.flags, false, s.upgrade, s.connect, s.length) == if s.upgrade then 1 else 0
  {
  }

  /** A body of known length, all of it. */
  lemma KnownBodyEnds(g: Grammar, s: Core, d: seq<byte>)
    requires HasKnownLength(s) && |d| == s.length
    ensures Feed(g, s, d) == Settle(s.(st := AtEnd(s), length := 0, log := s.log + Spans(BodySpan, d) + [MessageComplete]))
  {
    hide Feed, Settle, FeedAll;
    OnePiece(g, s, d);
    KnownLengthBody(g, s, [d]);
  }

  /** The last chunk and the trailer section. */
  lemma TrailersEnd(g: Grammar, s: Core, zeros: seq<byte>, ls: seq<Line>) returns (hs: HeaderKind)
    requires s.st.ChunkDigit? && s.length == 0 && s.index == 0 && IsZero(zeros) && AreLines(ls)
    ensures var r, e := Feed(g, s, zeros + (CRLF + SectionBytes(ls))), SectionEffect(s.flags.(trailing := true), 0, ls);
      if e.Refused? then r.st == Failed(e.code)
      else r == Settle(s.(st := BodyComplete, hs := hs, flags := e.flags, length := e.length,
                          log := s.log + ([ChunkHeader(0)] + SectionEvents(ls) + [ChunkComplete])))
  {
    hide Feed, Settle, Numeral, SectionEffect, SectionBytes, SectionEvents;
    FeedConcat(g, s, zeros, CRLF + SectionBytes(ls));
    ChunkDigits(g, s, zeros);
    var t := s.(st := ChunkSize, length := 0);
    FeedConcat(g, t, CRLF, SectionBytes(ls));
    SizeLine(g, t);
    HeaderOfChunk(t.(st := OnChunkHeader));
    var u := Note(t, ChunkHeader(0)).(st := FieldStart, flags := s.flags.(trailing := true));
    hs := SectionMeans(g, u, ls);
    var e := SectionEffect(u.flags, 0, ls);
    if e.Read? {
      var v := u.(st := TrailersDone, hs := hs, flags := e.flags, length := e.length, log := u.log + SectionEvents(ls));
      SettleMove(v);
      assert v.log + [ChunkComplete] == s.log + ([ChunkHeader(0)] + SectionEvents(ls) + [ChunkComplete]);
    }
  }

  lemma ChunkedBodyEnds(g: Grammar, s: Core, cs: seq<Chunk>, zeros: seq<byte>, ls: seq<Line>) returns (hs: HeaderKind)
    requires HasChunks(s) && s.index == 0 && AreChunks(cs) && IsZero(zeros) && AreLines(ls)
    ensures var r, e := Feed(g, s, BodyBytes(InChunks(cs, zeros, ls))), SectionEffect(s.flags.(trailing := true), 0, ls);
      if e.Refused? then r.st == Failed(e.code)
      else r == Settle(s.(st := AtEnd(s), hs := hs, flags := e.flags, length := e.length,
                          log := s.log + BodyEvents(InChunks(cs, zeros, ls)) + [MessageComplete]))
  {
    hide Feed, Settle, Numeral, SectionEffect, SectionBytes, SectionEvents, AllChunkBytes, AllChunkEvents, IsChunk;
    var rest := zeros + (CRLF + SectionBytes(ls));
    FeedSettled(g, s, AllChunkBytes(cs) + rest);
    ChunksSettle(s);
    var t := s.(st := ChunkDigit, length := 0);
    FeedConcat(g, t, AllChunkBytes(cs), rest);
    ChunksParse(g, t, cs);
    var u := t.(log := s.log + AllChunkEvents(cs));
    hs := TrailersEnd(g, u, zeros, ls);
    var e := SectionEffect(s.flags.(trailing := true), 0, ls);
    if e.Read? {
      var told := [ChunkHeader(0)] + SectionEvents(ls) + [ChunkComplete];
      BodyEnds(u.(st := BodyComplete, hs := hs, flags := e.flags, length := e.length, log := u.log + told));
      assert u.log + told + [MessageComplete] == s.log + BodyEvents(InChunks(cs, zeros, ls)) + [MessageComplete];
    }
  }

  /** The body that the headers announce, and the end of the message. */
  lemma BodyRead(g: Grammar, s: Core, q: Message, hs0: HeaderKind) returns (hs: HeaderKind)
    requires Fresh(s) && IsMessage(g, q)
    ensures var t := AfterSection(s, q, hs0, HeaderEffect(q).flags, HeaderEffect(q).length);
      Feed(g, t, BodyBytes(q.body)) ==
      Settle(t.(st := AtEnd(t), hs := hs, flags := FinalEffect(q).flags, length := FinalEffect(q).length * (if q.body.Known? then 0 else 1),
                log := t.log + BodyEvents(q.body) + [MessageComplete]))
  {
    hide Feed, Settle, SectionEffect, AllChunkBytes, AllChunkEvents, SectionBytes, SectionEvents;
    var e := HeaderEffect(q);
    var t := AfterSection(s, q, hs0, e.flags, e.length);
    SectionFrames(NO_FLAGS, 0, q.lines);
    hs := hs0;
    match q.body
    case NoBody =>
      FeedNothing(g, t);
      NoBodyEnds(t);
      assert t.log + BodyEvents(q.body) == t.log;
    case Known(d) => KnownBodyEnds(g, t, d);
    case InChunks(cs, zeros, trailers) => hs := ChunkedBodyEnds(g, t, cs, zeros, trailers);
  }

  /** A whole request: exactly its own events, and then the parser is ready for the next one, closed, or
      paused for the upgrade. */
  lemma MessageReads(g: Grammar, s: Core, q: Message)
    requires Fresh(s) && IsMessage(g, q)
    ensures var r := Feed(g, s, MessageBytes(q));
      && r.log == s.log + MessageEvents(s.seen, q)
      && if q.connect || AsksToUpgrade(q) then r.st.Upgraded? else if Persists(q) then Fresh(r) && r.seen else r.st.Closed?
  {
    hide Feed, Settle, SectionEffect, SectionBytes, SectionEvents, BodyBytes, BodyEvents, ShouldKeepAlive, Persists, HasItsBody, AsksToUpgrade;
    var head, e := q.line + SectionBytes(q.lines), HeaderEffect(q);
    IsAccepted(q);
    var hs := HeadersRead(g, s, q);
    assert MessageBytes(q) == head + BodyBytes(q.body);
    FeedConcat(g, s, head, BodyBytes(q.body));
    var t := AfterSection(s, q, hs, e.flags, e.length);
    FeedSettled(g, t, BodyBytes(q.body));
    hs := BodyRead(g, s, q, hs);
    var u := t.(st := AtEnd(t), hs := hs, flags := FinalEffect(q).flags, length := FinalEffect(q).length * (if q.body.Known? then 0 else 1),
                log := t.log + BodyEvents(q.body) + [MessageComplete]);
    EndSettles(u);
    assert u.log == s.log + MessageEvents(s.seen, q);
    UpgradeIsAsked(q);
    PersistsIs(q);
  }

  lemma IsAccepted(q: Message)
    requires HasItsBody(q)
    ensures HeaderEffect(q).Read? && FinalEffect(q).Read?
  {
    hide SectionEffect;
  }

  lemma UpgradeIsAsked(q: Message)
    requires HeaderEffect(q).Read?
    ensures HeaderEffect(q).flags.upgrade && HeaderEffect(q).flags.connUpgrade <==> AsksToUpgrade(q)
  {
    hide SectionEffect, SectionLists, SectionAsks;
    SectionSets(NO_FLAGS, 0, q.lines);
  }

  /** The connection goes on iff the request says so. */
  lemma PersistsIs(q: Message)
    requires HeaderEffect(q).Read? && FinalEffect(q).Read?
    ensures ShouldKeepAlive(Request, FinalEffect(q).flags, false, q.major, q.minor) <==> Persists(q)
  {
    hide SectionEffect, SectionLists, SectionAsks;
    SectionSets(NO_FLAGS, 0, q.lines);
    NoneLists(CLOSE);
    NoneLists(KEEP_ALIVE);
    if q.body.InChunks? {
      SectionSets(HeaderEffect(q).flags.(trailing := true), 0, q.body.trailers);
    }
  }

  /** The one section that is accepted and still has no message: a coding that is not `chunked` at its end,
      without an upgrade. */
  lemma UnknownCodingIsRefused(g: Grammar, s: Core, q: Message)
    requires Fresh(s) && IsMessageLine(g, q) && AreLines(q.lines) && HeaderEffect(q).Read? && !q.connect
    requires HeaderEffect(q).flags.transferEncoding && !HeaderEffect(q).flags.chunked && !AsksToUpgrade(q)
    ensures Feed(g, s, q.line + SectionBytes(q.lines)).st == Failed(HPE_INVALID_TRANSFER_ENCODING)
  {
    hide Feed, Settle, SectionEffect, SectionBytes, SectionEvents, AsksToUpgrade;
    var e := HeaderEffect(q);
    var hs := HeadersRead(g, s, q);
    UpgradeIsAsked(q);
    SectionFrames(NO_FLAGS, 0, q.lines);
    var t := AfterSection(s, q, hs, e.flags, e.length);
    SettleMove(t);
    assert Move(t) == Fail(t, HPE_INVALID_TRANSFER_ENCODING);
    SettledAlready(Move(t));
  }

  /* ---- streams of requests ------------------------------------------------------------------------------------ */

  /** Another request may follow this one. */
  ghost predicate GoesOn(q: Message) {
    !q.connect && !AsksToUpgrade(q) && Persists(q)
  }

  ghost predicate IsPipeline(g: Grammar, qs: seq<Message>) {
    (forall i :: 0 <= i < |qs| ==> IsMessage(g, qs[i])) && forall i :: 0 <= i < |qs| - 1 ==> GoesOn(qs[i])
  }

  function PipelineBytes(qs: seq<Message>): seq<byte> {
    if qs == [] then [] else MessageBytes(qs[0]) + PipelineBytes(qs[1..])
  }

  function PipelineEvents(seen: bool, qs: seq<Message>): seq<Event>
    decreases |qs|
  {
    if qs == [] then [] else MessageEvents(seen, qs[0]) + PipelineEvents(true, qs[1..])
  }

  lemma {:induction false} PipelineReads(g: Grammar, s: Core, qs: seq<Message>)
    requires Fresh(s) && IsPipeline(g, qs) && qs != []
    ensures var r, last := Feed(g, s, PipelineBytes(qs)), qs[|qs| - 1];
      && r.log == s.log + PipelineEvents(s.seen, qs)
      && if last.connect || AsksToUpgrade(last) then r.st.Upgraded? else if Persists(last) then Fresh(r) && r.seen else r.st.Closed?
    decreases |qs|
  {
    hide Feed, MessageBytes, MessageEvents, Persists, AsksToUpgrade, IsMessage, Fresh;
    var q, t := qs[0], Feed(g, s, MessageBytes(qs[0]));
    assert IsMessage(g, q);
    MessageReads(g, s, q);
    if |qs| == 1 {
      assert PipelineBytes(qs) == MessageBytes(q) + [] == MessageBytes(q);
      assert PipelineEvents(s.seen, qs) == MessageEvents(s.seen, q) + [] == MessageEvents(s.seen, q);
    } else {
      assert GoesOn(q);
      FeedConcat(g, s, MessageBytes(q), PipelineBytes(qs[1..]));
      PipelineReads(g, t, qs[1..]);
      assert t.log + PipelineEvents(true, qs[1..]) == s.log + PipelineEvents(s.seen, qs);
    }
  }

  /** Requests back to back, in any pieces: the callbacks see every one of them with its body, in order. */
  lemma PipelineDelivers(g: Grammar, s: Core, qs: seq<Message>, pieces: seq<seq<byte>>)
    requires Fresh(s) && IsPipeline(g, qs) && qs != [] && Flatten(pieces) == PipelineBytes(qs)
    ensures SeenBy(g, s, pieces) == s.log + PipelineEvents(s.seen, qs)
  {
    hide Feed, PipelineBytes, PipelineEvents, StopAt, Within, NameLength, IsPipeline, Persists, AsksToUpgrade;
    PipelineReads(g, s, qs);
  }

  /** Empty lines before a request are skipped. */
  lemma {:induction false} EmptyLinesAreSkipped(g: Grammar, s: Core, bytes: seq<byte>)
    requires s.st.Start? && forall i :: 0 <= i < |bytes| ==> bytes[i] in {CR, LF}
    ensures Feed(g, s, bytes) == s
    decreases |bytes|
  {
    hide Feed, Settle, InLine;
    SettledAlready(s);
    if bytes == [] {
      FeedNothing(g, s);
    } else {
      ByteFirst(g, s, bytes);
      assert Step(g, s, bytes[0]) == s;
      EmptyLinesAreSkipped(g, s, bytes[1..]);
    }
  }

  /** A closed connection takes line ends and refuses everything else. */
  lemma {:induction false} ClosedRefuses(g: Grammar, s: Core, bytes: seq<byte>)
    requires s.st.Closed?
    ensures Feed(g, s, bytes) == if forall i :: 0 <= i < |bytes| ==> bytes[i] in {CR, LF} then s else Fail(s, 5)
    decreases |bytes|
  {
    hide Feed, Step, Settle;
    SettledAlready(s);
    if bytes == [] {
      FeedNothing(g, s);
    } else {
      ClosedStep(g, s, bytes[0]);
      ByteFirst(g, s, bytes);
      if bytes[0] in {CR, LF} {
        ClosedRefuses(g, s, bytes[1..]);
        assert forall i :: 0 <= i < |bytes[1..]| ==> bytes[1..][i] == bytes[i + 1];
      } else {
        FailedStays(g, Fail(s, HPE_CLOSED_CONNECTION), bytes[1..]);
      }
    }
  }

  lemma ClosedStep(g: Grammar, s: Core, b: byte)
    requires s.st.Closed?
    ensures Step(g, s, b) == if b in {CR, LF} then s else Fail(s, HPE_CLOSED_CONNECTION)
  {
  }

  /** After a request that does not persist, the next one is refused. */
  lemma NextIsRefused(g: Grammar, s: Core, q: Message, b: byte, more: seq<byte>)
    requires Fresh(s) && IsMessage(g, q) && !q.connect && !AsksToUpgrade(q) && !Persists(q) && b !in {CR, LF}
    ensures Feed(g, s, MessageBytes(q) + ([b] + more)).st == Failed(HPE_CLOSED_CONNECTION)
  {
    hide Feed, MessageBytes, MessageEvents, Persists, AsksToUpgrade, IsMessage;
    MessageReads(g, s, q);
    FeedConcat(g, s, MessageBytes(q), [b] + more);
    assert ([b] + more)[0] == b;
    ClosedRefuses(g, Feed(g, s, MessageBytes(q)), [b] + more);
  }

  /** `CONNECTION: Close` ends an HTTP/1.1 connection and `Connection: keep-alive` keeps an HTTP/1.0 one;
      without a Connection header it is the other way round. */
  lemma ConnectionExamples(line: seq<byte>, closing: Line, keeping: Line)
    requires closing.name == [67, 79, 78, 78, 69, 67, 84, 73, 79, 78] && closing.value == [67, 108, 111, 115, 101]
    requires keeping.name == [67, 111, 110, 110, 101, 99, 116, 105, 111, 110]
    requires keeping.value == [107, 101, 101, 112, 45, 97, 108, 105, 118, 101]
    ensures Persists(Message(line, false, 1, 1, [], NoBody)) && !Persists(Message(line, false, 1, 1, [closing], NoBody))
    ensures !Persists(Message(line, false, 1, 0, [], NoBody)) && Persists(Message(line, false, 1, 0, [keeping], NoBody))
  {
    hide Lists, KindOf;
    NoneLists(CLOSE);
    NoneLists(KEEP_ALIVE);
    assert Lower(closing.name) == CONNECTION && Lower(keeping.name) == CONNECTION;
    KnownKinds(closing.name);
    KnownKinds(keeping.name);
    assert Lower(closing.value) == CLOSE && Lower(keeping.value) == KEEP_ALIVE;
    WordIsListed(closing.value, CLOSE);
    WordIsListed(keeping.value, KEEP_ALIVE);
    assert [closing][0] == closing && [keeping][0] == keeping;
  }

  /** A list of one word. */
  lemma WordIsListed(v: seq<byte>, word: seq<byte>)
    requires Lower(v) == word && COMMA !in v && v != [] && !IsBlank(v[0])
    ensures Lists(v, word)
  {
    NoCommas([], v);
    assert [] + v == v;
    assert Elements(v)[0] == v;
    assert v[..|word|] == v;
  }

  lemma {:induction false} NoCommas(cur: seq<byte>, v: seq<byte>)
    requires COMMA !in v
    ensures ElementsFrom(cur, v) == [cur + v]
    decreases |v|
  {
    if v == [] {
      assert cur + v == cur;
    } else {
      NoCommas(cur + [v[0]], v[1..]);
      assert cur + [v[0]] + v[1..] == cur + v;
    }
  }
}
