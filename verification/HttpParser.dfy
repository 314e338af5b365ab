/** The request parser as it runs: a struct whose fields change while it walks through the
    data, callbacks that may pause or fail at any point, spans reported as slices of the data.
    Every way `Execute` can end is tied to the byte function `HttpSpec.Feed`, and so is what the
    callbacks have seen when it does. */
module HttpParser {
  import opened Bytes
  import opened HttpSpec
  import opened HttpBodies
  import opened HttpSteps
  import opened HttpEvents

  /** What `on_headers_complete` answers. There 1 and 2 would change how the body is read; they are
      not part of this model. From every other callback they are errors like any other answer. */
  type Answer = r: int | r != 1 && r != 2 witness 0

  /** The states in which a span is open. */
  predicate Spanning(st: St) {
    || st.Field? || st.FieldWord? || st.FieldCo? || st.FieldColon? || st.FieldGeneral? || st.FieldOtherwise?
    || st.Length? || st.LengthWs? || st.TeChunked? || st.TeLast? || st.TeToken? || st.TeOws?
    || st.Value? || st.Conn? || st.ConnWord? || st.ConnWs? || st.ConnToken? || st.ValueEnd?
    || st.Body? || st.ChunkData? || st.EofBody?
  }

  function KindIn(st: St): SpanKind {
    if st.Field? || st.FieldWord? || st.FieldCo? || st.FieldColon? || st.FieldGeneral? || st.FieldOtherwise? then FieldSpan
    else if st.Body? || st.ChunkData? || st.EofBody? then BodySpan
    else ValueSpan
  }

  /** `_index` is inside the keyword in a match state and 0 elsewhere; a block still has bytes to come. */
  predicate Aligned(st: St, index: nat, length: nat) {
    && (if Matching(st) then index < |Letters(Keyword(st))| else index == 0)
    && (st.BodyStart? || st.Body? || st.ChunkStart? || st.ChunkData? ==> length > 0)
  }

  /** A state the parser may be in with these fields: the right span is open, and it has not failed. */
  predicate Fits(st: St, open: bool, kind: SpanKind, index: nat, length: nat) {
    && open == Spanning(st) && (open ==> kind == KindIn(st)) && Aligned(st, index, length)
    && !st.Failed? && !st.NameFailed? && !st.Upgraded?
  }

  /** A finished name has been reported, and nothing else since. */
  predicate NameReported(st: St) {
    st.FieldDone? || st.GoFail?
  }

  /** The error code of a callback that fails. */
  function CallbackError(e: Event): Errno {
    match e
    case Reset => 31
    case MessageBegin => 16
    case FieldComplete => 28
    case ValueComplete => 29
    case HeadersComplete => 17
    case ChunkHeader(_) => 19
    case ChunkComplete => 20
    case MessageComplete => 18
    case SpanByte(_, _) => HPE_USER
  }

  /** The error a span callback's answer becomes. */
  function SpanError(r: int): (e: int)
    ensures e == 24 <==> r == -1 || r == 24
    ensures e != r ==> e == 24
  {
    if r == -1 then HPE_USER else r
  }

  /** The error tells which callback failed, and is no error of the grammar and no pause. */
  lemma ErrorsTellCallbacks(e: Event, f: Event)
    requires !e.SpanByte? && !f.SpanByte?
    ensures CallbackError(e) == CallbackError(f) <==> e == f || (e.ChunkHeader? && f.ChunkHeader?)
    ensures CallbackError(e) !in {HPE_STRICT, HPE_LF_EXPECTED, HPE_UNEXPECTED_CONTENT_LENGTH, HPE_CLOSED_CONNECTION,
      HPE_INVALID_HEADER_TOKEN, HPE_INVALID_CONTENT_LENGTH, HPE_INVALID_CHUNK_SIZE, HPE_INVALID_TRANSFER_ENCODING,
      HPE_PAUSED, HPE_PAUSED_UPGRADE, HPE_USER, HPE_CR_EXPECTED, HPE_UNEXPECTED_SPACE}
  {
  }

  lemma KnownBodiesHaveBytes(f: Flags, upgrade: bool, connect: bool, length: nat)
    ensures AfterHeadersComplete(Request, f, false, upgrade, connect, length) == 3 ==> length > 0
  {
  }

  datatype Match = Complete | Pause | Mismatch

  /** Where a call of `Execute` is heading, and whether it began inside a header name. */
  datatype Aim = Aim(end: Goal, inName: bool)

  class Parser {
    const g: Grammar
    const reply: nat -> int
    const onHeaders: nat -> Answer

    var st: St
    var length: nat
    var flags: Flags
    var hs: HeaderKind
    var index: nat
    var upgrade: bool
    var connect: bool
    var major: nat
    var minor: nat
    var seen: bool
    var token: seq<byte>
    var spanOpen: bool
    var spanKind: SpanKind
    var spanPos: nat
    var error: int
    var errorPos: nat
    var answers: seq<int>
    var log: seq<Event>

    constructor (g: Grammar, reply: nat -> int, onHeaders: nat -> Answer)
      ensures Resting() && error == 0 && View() == INITIAL && answers == []
      ensures this.g == g && this.reply == reply && this.onHeaders == onHeaders
    {
      this.g, this.reply, this.onHeaders := g, reply, onHeaders;
      st, length, flags, hs, index, upgrade := Start, 0, NO_FLAGS, General, 0, false;
      connect, major, minor, seen, token := false, 0, 0, false, [];
      spanOpen, spanKind, spanPos := false, FieldSpan, 0;
      error, errorPos, answers, log := 0, 0, [], [];
    }

    /* ---- the parser seen as a state of the byte function ---------------------------------------- */

    ghost function View(): Core
      reads this
    {
      Core(st, length, flags, hs, index, upgrade, connect, major, minor, seen, token, log)
    }

    /** The log with the bytes of the open span up to p. */
    ghost function Heard(data: seq<byte>, p: nat): seq<Event>
      reads this`spanOpen, this`spanKind, this`spanPos, this`log
    {
      if spanOpen && spanPos <= p <= |data| then log + Spans(spanKind, data[spanPos..p]) else log
    }

    /** With the bytes of the open span up to p counted as delivered. */
    ghost function At(data: seq<byte>, p: nat): Core
      reads this
    {
      View().(log := Heard(data, p))
    }

    /** The log ends inside a name only while that name is being read, or has just been reported. */
    ghost predicate Resting()
      reads this`st, this`spanOpen, this`spanKind, this`index, this`length, this`log
    {
      && Fits(st, spanOpen, spanKind, index, length)
      && (EndsInName(log) ==> NameReported(st) || (spanOpen && spanKind.FieldSpan?))
    }

    /** A name at the end of the log is the first part of the one being read, from an earlier call. */
    ghost predicate Tidy(aim: Aim)
      reads this`spanOpen, this`spanKind, this`spanPos, this`log
    {
      EndsInName(log) ==> spanOpen && spanKind.FieldSpan? && spanPos == 0 && aim.inName
    }

    /** At p in the data, on the way to the aim. */
    ghost predicate Going(data: seq<byte>, p: nat, aim: Aim)
      reads this
    {
      && error == 0 && p <= |data| && (spanOpen ==> spanPos <= p)
      && Fits(st, spanOpen, spanKind, index, length) && (NameReported(st) || Tidy(aim))
      && Ahead(g, At(data, p), data, p) == aim.end
    }

    /** About to read the byte at p in state s. */
    ghost predicate Reads(data: seq<byte>, p: nat, s: Core, aim: Aim)
      reads this`error, this`spanOpen, this`spanKind, this`spanPos, this`log
    {
      && error == 0 && p < |data| && (spanOpen ==> spanPos <= p) && Tidy(aim)
      && !NeedsNoByte(s.st) && !s.st.Upgraded? && Ahead(g, s, data, p) == aim.end
    }

    /** About to move on from state s without a byte. */
    ghost predicate Moves(data: seq<byte>, p: nat, s: Core, aim: Aim)
      reads this`error, this`spanOpen
    {
      error == 0 && p <= |data| && !spanOpen && NeedsNoByte(s.st) && Ahead(g, s, data, p) == aim.end
    }

    /** All callbacks since `past` have answered 0. */
    ghost predicate Quiet(past: seq<int>)
      reads this`answers
    {
      forall i :: |past| <= i < |answers| ==> answers[i] == 0
    }

    /** Stopped by the grammar or for an upgrade: the end has been reached. After a byte refused in a
        name the callbacks have not seen the part of that name that lies in this data. */
    ghost predicate Ended(aim: Aim)
      reads this
    {
      || (&& error == HPE_PAUSED_UPGRADE && st.AfterMessage? && Resting()
          && View().(st := Upgraded) == aim.end.core && errorPos == aim.end.at)
      || (&& (if st.Failed? then error == st.code else st.NameFailed? && error == HPE_INVALID_HEADER_TOKEN)
          && View().(log := aim.end.core.log) == aim.end.core && log == Seen(aim.end)
          && (st.NameFailed? ==> errorPos == aim.end.at && (!aim.inName ==> NameLength(aim.end.core.log) <= aim.end.at)))
    }

    /** From state `next` the data after `errorPos` would lead to the same end. */
    ghost predicate Resumes(data: seq<byte>, aim: Aim, next: St)
      reads this
    {
      errorPos <= |data| && Ahead(g, View().(st := next), data, errorPos) == aim.end
    }

    /** Stopped by the answer of the last callback: either the run can go on from `errorPos` to the same
        end, or the parser is dead; then the failed callback was the last to see anything, and nothing
        but its answer kept the run from the end. */
    ghost predicate Interrupted(data: seq<byte>, aim: Aim, past: seq<int>)
      reads this
    {
      && past < answers && (forall i :: |past| <= i < |answers| - 1 ==> answers[i] == 0)
      && var r := answers[|answers| - 1];
         r != 0 &&
         if st.Failed? then
           && r != HPE_PAUSED && log != [] && error == st.code == CallbackError(log[|log| - 1])
           && log <= aim.end.core.log && exists next :: Resumes(data, aim, next)
         else
           Resting() && (spanOpen ==> errorPos == |data|) && error == SpanError(r) && Resumes(data, aim, st)
    }

    ghost predicate Stopped(data: seq<byte>, aim: Aim, past: seq<int>)
      reads this
    {
      error != 0 && past <= answers && errorPos <= |data| && if Quiet(past) then Ended(aim) else Interrupted(data, aim, past)
    }

    /** After one visit of a state. */
    ghost predicate Moved(data: seq<byte>, p: nat, q: nat, aim: Aim, past: seq<int>, rank: nat)
      reads this
    {
      if error == 0 then
        Going(data, q, aim) && past <= answers && Quiet(past) && p <= q && (q == p ==> Rank(st) < rank)
      else
        Stopped(data, aim, past) && p <= errorPos && (errorPos == p && error == HPE_PAUSED ==> Rank(st) < rank)
    }

    /** The last callback objected, and the run can go on from `errorPos`. */
    lemma StoppedByAnswer(data: seq<byte>, aim: Aim, past: seq<int>, r: int)
      requires answers == past + [r] && r != 0 && error == SpanError(r)
      requires !st.Failed? && Resting() && (spanOpen ==> errorPos == |data|) && Resumes(data, aim, st)
      ensures Stopped(data, aim, past) && error != 0
    {
      hide Ahead, Ended, Fits, EndsInName, View;
      assert answers[|past|] != 0 && !Quiet(past);
    }

    /** The last callback objected, and the parser is dead. */
    lemma StoppedDead(data: seq<byte>, aim: Aim, past: seq<int>, r: int, next: St)
      requires answers == past + [r] && r != 0 && r != HPE_PAUSED
      requires st.Failed? && log != [] && error == st.code == CallbackError(log[|log| - 1]) && log <= aim.end.core.log
      requires Resumes(data, aim, next)
      ensures Stopped(data, aim, past)
    {
      hide Ahead, Ended, Resting, CallbackError, View;
      assert answers[|past|] != 0 && !Quiet(past);
    }

    /** The parser has failed by itself. */
    lemma StoppedByBytes(data: seq<byte>, p: nat, aim: Aim, past: seq<int>, rank: nat)
      requires answers == past && p <= errorPos <= |data|
      requires if st.Failed? then error == st.code else st.NameFailed? && error == HPE_INVALID_HEADER_TOKEN
      requires View().(log := aim.end.core.log) == aim.end.core && log == Seen(aim.end)
      requires st.NameFailed? ==> errorPos == aim.end.at && (!aim.inName ==> NameLength(aim.end.core.log) <= aim.end.at)
      ensures Moved(data, p, p, aim, past, rank)
    {
      hide Ahead, Going, Resting, Rank, Seen, NameLength;
    }

    /* ---- ways to leave a state ------------------------------------------------------------------- */

    /** Take a byte into the open span. */
    method Take(data: seq<byte>, p: nat, next: St, ghost s: Core, ghost aim: Aim) returns (q: nat)
      requires Reads(data, p, s, aim) && spanOpen && Fits(next, true, spanKind, index, length)
      requires Step(g, s, data[p]) == Into(At(data, p), spanKind, data[p], next)
      modifies this`st
      ensures Moved(data, p, q, aim, answers, Rank(s.st)) && q == p + 1
    {
      hide Ahead, Step, Spans, Fits, Rank, NeedsNoByte, Stopped;
      AheadByte(g, s, data, p);
      SpansJoin(spanKind, data, spanPos, p, p + 1);
      SpanOfOne(spanKind, data, p);
      NextIsAlive(next, true, spanKind, index, length);
      st := next;
      q := p + 1;
      assert Heard(data, q) == old(Heard(data, p)) + [SpanByte(spanKind, data[p])];
    }

    lemma NextIsAlive(next: St, open: bool, kind: SpanKind, index: nat, length: nat)
      requires Fits(next, open, kind, index, length)
      ensures !next.Failed? && !next.NameFailed? && !next.Upgraded? && open == Spanning(next)
    {
    }

    /** Take a byte outside any span. */
    method Skip(data: seq<byte>, p: nat, next: St, ghost s: Core, ghost aim: Aim) returns (q: nat)
      requires Reads(data, p, s, aim) && !spanOpen && Fits(next, false, spanKind, index, length)
      requires Step(g, s, data[p]) == View().(st := next)
      modifies this`st
      ensures Moved(data, p, q, aim, answers, Rank(s.st)) && q == p + 1
    {
      hide Ahead, Step, Spans, Fits, Rank, NeedsNoByte, Stopped;
      AheadByte(g, s, data, p);
      NextIsAlive(next, false, spanKind, index, length);
      st := next;
      q := p + 1;
    }

    /** Go to a state that does the same to the next byte. */
    method Hop(data: seq<byte>, p: nat, next: St, ghost s: Core, ghost aim: Aim)
      requires Reads(data, p, s, aim) && Fits(next, spanOpen, spanKind, index, length) && Rank(next) < Rank(s.st)
      requires !NeedsNoByte(next) && Step(g, s, data[p]) == Step(g, At(data, p).(st := next), data[p])
      modifies this`st
      ensures Moved(data, p, p, aim, answers, Rank(s.st))
    {
      hide Ahead, Step, Spans, Fits, Rank, NeedsNoByte, Stopped, Settle;
      ghost var t := At(data, p).(st := next);
      NextIsAlive(next, spanOpen, spanKind, index, length);
      SettledAlready(s);
      SettledAlready(t);
      AheadSame(g, s, t, data, p);
      st := next;
      assert At(data, p) == t;
    }

    lemma NothingHeld(data: seq<byte>, p: nat)
      requires spanOpen ==> spanPos == p
      ensures At(data, p) == View()
    {
    }

    /** Stop with an error, at p or after the byte at p, with nothing left to report. */
    method Reject(data: seq<byte>, p: nat, pos: nat, code: Errno, ghost s: Core, ghost aim: Aim)
      requires Reads(data, p, s, aim) && p <= pos <= p + 1 && (spanOpen ==> spanPos == p)
      requires Step(g, s, data[p]) == Fail(At(data, p), code)
      modifies this`st, this`error, this`errorPos
      ensures error != 0 && Moved(data, p, p, aim, answers, Rank(s.st))
    {
      hide Ahead, Step, Heard, Rank, NeedsNoByte, Moved, NameLength, Tidy;
      NothingHeld(data, p);
      AheadByte(g, s, data, p);
      AheadOver(g, Fail(At(data, p), code), data, p + 1);
      error, errorPos, st := code, pos, Failed(code);
      assert View() == aim.end.core;
      StoppedByBytes(data, p, aim, answers, Rank(s.st));
    }

    /** A byte that may not stand in a header name: what the open span holds is not reported. */
    method Refuse(data: seq<byte>, p: nat, ghost s: Core, ghost aim: Aim)
      requires Reads(data, p, s, aim) && spanOpen && spanKind.FieldSpan?
      requires Step(g, s, data[p]) == At(data, p).(st := NameFailed)
      modifies this`st, this`error, this`errorPos
      ensures error != 0 && Moved(data, p, p, aim, answers, Rank(s.st))
    {
      hide Ahead, Step, Spans, Rank, NeedsNoByte, Moved, NameLength, EndsInName, Min;
      AheadByte(g, s, data, p);
      error, errorPos, st := HPE_INVALID_HEADER_TOKEN, p, NameFailed;
      NameAside(log, data[spanPos..p], p, spanPos);
      StoppedByBytes(data, p, aim, answers, Rank(s.st));
    }

    /** Dropping what one piece holds of a name. */
    lemma NameAside(log: seq<Event>, name: seq<byte>, p: nat, start: nat)
      requires |name| == p - start && (EndsInName(log) ==> start == 0)
      ensures var all := log + Spans(FieldSpan, name); all[..|all| - Min(NameLength(all), p)] == log
      ensures !EndsInName(log) ==> NameLength(log + Spans(FieldSpan, name)) <= p
    {
      hide NameLength, EndsInName;
      NameGrows(log, name);
    }

    /** An event callback, from a state that needs no byte. */
    method Call(data: seq<byte>, p: nat, e: Event, next: St, ghost s: Core, ghost aim: Aim)
      requires Moves(data, p, s, aim) && !e.SpanByte? && Fits(next, false, spanKind, index, length) && Rank(next) < Rank(s.st)
      requires Move(s) == Note(View(), e).(st := next)
      modifies this`st, this`error, this`errorPos, this`answers, this`log
      ensures Moved(data, p, p, aim, old(answers), Rank(s.st))
    {
      hide Ahead, Move, Fits, NeedsNoByte, Rank, CallbackError, Spans, Stopped;
      AheadMove(g, s, data, p);
      AheadLogGrows(g, Move(s), data, p);
      NextIsAlive(next, false, spanKind, index, length);
      log := log + [e];
      assert !EndsInName(log);
      var r := if e.HeadersComplete? then onHeaders(|answers|) else reply(|answers|);
      answers := answers + [r];
      if r == 0 {
        st := next;
      } else if r == HPE_PAUSED {
        error, errorPos, st := HPE_PAUSED, p, next;
        StoppedByAnswer(data, aim, old(answers), r);
      } else {
        error, errorPos, st := CallbackError(e), p, Failed(CallbackError(e));
        StoppedDead(data, aim, old(answers), r, next);
      }
    }

    /** Report the open span up to `end`. */
    method Report(data: seq<byte>, end: nat, ghost aim: Aim) returns (r: int)
      requires spanOpen && spanPos <= end <= |data| && Tidy(aim)
      modifies this`answers, this`log, this`spanOpen
      ensures !spanOpen && View() == old(At(data, end)) && answers == old(answers) + [r]
      ensures spanKind.FieldSpan? || Tidy(aim)
    {
      hide Spans, EndsInName;
      SpanEnds(log, spanKind, data[spanPos..end]);
      log := log + Spans(spanKind, data[spanPos..end]);
      spanOpen := false;
      r := reply(|answers|);
      answers := answers + [r];
    }

    /** Report the open span up to `end`, then go on at `pos`. */
    method CloseSpan(data: seq<byte>, p: nat, end: nat, pos: nat, next: St, ghost aim: Aim, ghost rank: nat)
      requires error == 0 && spanOpen && spanPos <= end <= |data| && p <= pos <= |data| && Tidy(aim)
      requires Fits(next, false, spanKind, index, length) && (spanKind.FieldSpan? ==> NameReported(next)) && (pos == p ==> Rank(next) < rank)
      requires Ahead(g, At(data, end).(st := next), data, pos) == aim.end
      modifies this`st, this`error, this`errorPos, this`answers, this`log, this`spanOpen
      ensures Moved(data, p, pos, aim, old(answers), rank)
    {
      hide Ahead, Fits, Stopped, Rank, EndsInName, Spans, SpanError;
      NextIsAlive(next, false, spanKind, index, length);
      var r := Report(data, end, aim);
      st := next;
      assert View() == old(At(data, end)).(st := next);
      if r != 0 {
        error, errorPos := SpanError(r), pos;
        StoppedByAnswer(data, aim, old(answers), r);
      }
    }

    /** Open a span at p; it holds nothing yet. */
    method StartSpan(ghost data: seq<byte>, p: nat, kind: SpanKind, ghost s: Core, ghost aim: Aim)
      requires Reads(data, p, s, aim) && !spanOpen
      modifies this`spanOpen, this`spanKind, this`spanPos
      ensures Reads(data, p, s, aim) && spanOpen && spanKind == kind && spanPos == p && At(data, p) == old(At(data, p))
    {
      hide Ahead, Spans, NeedsNoByte, EndsInName;
      SpansOfNothing(kind, data, p);
      spanOpen, spanKind, spanPos := true, kind, p;
    }

    /** Report the open span up to `end`, then fail. */
    method Spoil(data: seq<byte>, p: nat, end: nat, pos: nat, code: Errno, ghost s: Core, ghost aim: Aim)
      requires Reads(data, p, s, aim) && spanOpen && p <= end <= p + 1 && p <= pos <= p + 1 && index == 0 && Rank(s.st) > 1
      requires Step(g, s, data[p]) == Fail(At(data, end), code)
      modifies this`st, this`error, this`errorPos, this`answers, this`log, this`spanOpen
      ensures Moved(data, p, pos, aim, old(answers), Rank(s.st))
    {
      hide Ahead, Step, Spans, Moved;
      ghost var t := At(data, end);
      AheadByte(g, s, data, p);
      AheadOver(g, Fail(t, code), data, p + 1);
      AheadOver(g, t.(st := GoFail(code)), data, pos);
      CloseSpan(data, p, end, pos, GoFail(code), aim, Rank(s.st));
    }

    /** Go on from a state that needs no byte. */
    method Advance(data: seq<byte>, p: nat, next: St, ghost s: Core, ghost aim: Aim)
      requires Moves(data, p, s, aim) && Tidy(aim) && Fits(next, false, spanKind, index, length) && Rank(next) < Rank(s.st)
      requires Move(s) == View().(st := next)
      modifies this`st
      ensures Moved(data, p, p, aim, answers, Rank(s.st))
    {
      hide Ahead, Move, Fits, NeedsNoByte, Rank, Stopped, Spans, EndsInName;
      AheadMove(g, s, data, p);
      st := next;
    }

    /** Stop with an error in a state that needs no byte. */
    method RejectNow(data: seq<byte>, p: nat, code: Errno, ghost s: Core, ghost aim: Aim)
      requires Moves(data, p, s, aim)
      requires Move(s) == Fail(View(), code)
      modifies this`st, this`error, this`errorPos
      ensures error != 0 && Moved(data, p, p, aim, answers, Rank(s.st))
    {
      hide Ahead, Move, NeedsNoByte, Rank, Moved, Stopped, Spans, EndsInName, NameLength;
      AheadMove(g, s, data, p);
      AheadOver(g, Fail(View(), code), data, p);
      error, errorPos, st := code, p, Failed(code);
      StoppedByBytes(data, p, aim, answers, Rank(s.st));
    }

    /** In state `st` at p, with a byte to read. */
    ghost predicate Now(data: seq<byte>, p: nat, s: Core, aim: Aim)
      reads this
    {
      s == At(data, p) && Reads(data, p, s, aim) && Fits(st, spanOpen, spanKind, index, length)
    }

    /** In a state that needs no byte, with no span open. */
    ghost predicate Due(data: seq<byte>, p: nat, s: Core, aim: Aim)
      reads this
    {
      && s == View() && Moves(data, p, s, aim) && Fits(st, spanOpen, spanKind, index, length)
      && (NameReported(st) || Tidy(aim))
    }

    /* ---- keywords --------------------------------------------------------------------------------- */

    /** `llparse__match_sequence`: compare with the keyword from `_index` on. */
    method MatchSequence(data: seq<byte>, p: nat) returns (m: Match, q: nat)
      requires Matching(st) && index < |Letters(Keyword(st))| && p <= |data|
      modifies this`index
      ensures p <= q <= |data| && Matches(st, old(index), data[p..q])
      ensures old(index) + (q - p) < |Letters(Keyword(st))|
      ensures m.Pause? ==> q == |data| && index == old(index) + (q - p)
      ensures !m.Pause? ==> q < |data| && index == 0
      ensures m.Complete? ==> old(index) + (q - p) + 1 == |Letters(Keyword(st))|
      ensures !m.Pause? ==> (m.Complete? <==>
        old(index) + (q - p) + 1 == |Letters(Keyword(st))| && Folded(st, data[q]) == Letters(Keyword(st))[old(index) + (q - p)])
      ensures m.Mismatch? ==> Folded(st, data[q]) != Letters(Keyword(st))[old(index) + (q - p)]
    {
      hide Letters, Folded, Keyword;
      var word := Letters(Keyword(st));
      var i := index;
      q := p;
      while q < |data|
        invariant p <= q <= |data| && i == old(index) + (q - p) < |word|
        invariant Matches(st, old(index), data[p..q])
        invariant index == old(index)
      {
        if Folded(st, data[q]) != word[i] {
          index := 0;
          return Mismatch, q;
        }
        if i + 1 == |word| {
          index := 0;
          return Complete, q;
        }
        assert data[p..q + 1] == data[p..q] + [data[q]];
        i, q := i + 1, q + 1;
      }
      index := i;
      m := Pause;
    }

    lemma HeardMore(data: seq<byte>, p: nat, q: nat)
      requires spanOpen && spanPos <= p <= q <= |data|
      ensures Heard(data, q) == Heard(data, p) + Spans(spanKind, data[p..q])
    {
      hide Spans;
      SpansJoin(spanKind, data, spanPos, p, q);
    }

    lemma MovedOn(data: seq<byte>, p: nat, mid: nat, q: nat, aim: Aim, past: seq<int>, rank: nat)
      requires p <= mid && Moved(data, mid, q, aim, past, rank)
      ensures Moved(data, p, q, aim, past, rank)
    {
      hide Going, Stopped, Rank;
    }

    /** The part of a keyword that the data holds; at its last letter or at a mismatch the run is in
        state t at q. */
    method TakeWord(data: seq<byte>, p: nat, ghost s: Core, ghost aim: Aim) returns (m: Match, q: nat, ghost t: Core)
      requires p < |data| && Now(data, p, s, aim) && Matching(st)
      modifies this`index
      ensures p <= q <= |data| && t.st == s.st == st && (m.Pause? ==> Moved(data, p, q, aim, answers, Rank(s.st)))
      ensures !m.Pause? ==>
        && q < |data| && index == 0 && Reads(data, q, t, aim) && At(data, q) == t.(index := 0)
        && t.index < |Letters(Keyword(st))|
        && (if m.Complete? then t.index + 1 == |Letters(Keyword(st))| && Folded(st, data[q]) == Letters(Keyword(st))[t.index]
            else Folded(st, data[q]) != Letters(Keyword(st))[t.index])
    {
      hide Ahead, Letters, Folded, Keyword, Heard, Matches, Stopped, Rank, EndsInName;
      m, q := MatchSequence(data, p);
      t := s.(index := s.index + (q - p), log := s.log + Spans(spanKind, data[p..q]));
      AheadMatch(g, s, data, p, q);
      HeardMore(data, p, q);
    }

    /* ---- header names ----------------------------------------------------------------------------- */

    method FieldKeyword(data: seq<byte>, p: nat, ghost s: Core, ghost aim: Aim) returns (q: nat)
      requires p < |data| && Now(data, p, s, aim) && st.FieldWord?
      modifies this
      ensures Moved(data, p, q, aim, old(answers), old(Rank(st)))
    {
      hide Step, Moved, Reads, Letters, Folded, Heard;
      var m, mid;
      ghost var t;
      m, mid, t := TakeWord(data, p, s, aim);
      q := mid;
      if !m.Pause? {
        if m.Complete? {
          FieldWordEnds(g, t, data[mid]);
          q := FieldKnownByte(data, mid, st.word, t, aim);
        } else {
          NameWordHops(g, t, data[mid]);
          hs := General;
          Hop(data, mid, FieldGeneral, t, aim);
        }
        MovedOn(data, p, mid, q, aim, old(answers), Rank(s.st));
      }
    }

    /** The last letter of a keyword says which header it is. */
    method FieldKnownByte(data: seq<byte>, p: nat, w: Word, ghost s: Core, ghost aim: Aim) returns (q: nat)
      requires Reads(data, p, s, aim) && p < |data| && spanOpen && spanKind == FieldSpan && index == 0
      requires At(data, p) == s.(index := 0)
      requires Step(g, s, data[p]) == WordField(Into(s.(index := 0), FieldSpan, data[p], Field), w)
      modifies this`st, this`hs
      ensures Moved(data, p, q, aim, answers, Rank(s.st))
    {
      hide Step, Moved, Reads, Heard;
      if w.On? {
        q := Take(data, p, FieldCo, s, aim);
      } else {
        hs := if w.EntLength? then ContentLength else if w.RansferEncoding? then TransferEncoding
              else if w.Pgrade? then Upgrade else Connection;
        q := Take(data, p, FieldColon, s, aim);
      }
    }

    method FieldByte(data: seq<byte>, p: nat, ghost s: Core, ghost aim: Aim) returns (q: nat)
      requires p < |data| && Now(data, p, s, aim) && st.Field?
      modifies this
      ensures Moved(data, p, q, aim, old(answers), old(Rank(st)))
    {
      hide Moved, Reads, Heard, LowerByte, InFieldGeneral;
      var c := LowerByte(data[p]);
      if c in {99, 112, 116, 117} {
        var w := if c == 99 then On else if c == 112 then RoxyConnection else if c == 116 then RansferEncoding else Pgrade;
        q := Take(data, p, FieldWord(w), s, aim);
      } else {
        NameHops(g, s, data[p]);
        hs := General;
        Hop(data, p, FieldGeneral, s, aim);
        q := p;
      }
    }

    method FieldCoByte(data: seq<byte>, p: nat, ghost s: Core, ghost aim: Aim) returns (q: nat)
      requires p < |data| && Now(data, p, s, aim) && st.FieldCo?
      modifies this
      ensures Moved(data, p, q, aim, old(answers), old(Rank(st)))
    {
      hide Moved, Reads, Heard, LowerByte, InFieldGeneral;
      var c := LowerByte(data[p]);
      if c in {110, 116} {
        q := Take(data, p, FieldWord(if c == 110 then Ection else EntLength), s, aim);
      } else {
        NameHops(g, s, data[p]);
        hs := General;
        Hop(data, p, FieldGeneral, s, aim);
        q := p;
      }
    }

    method FieldGeneralByte(data: seq<byte>, p: nat, ghost s: Core, ghost aim: Aim) returns (q: nat)
      requires p < |data| && Now(data, p, s, aim) && st.FieldGeneral?
      modifies this
      ensures Moved(data, p, q, aim, old(answers), old(Rank(st)))
    {
      hide Moved, Reads, Heard, IsToken;
      if IsToken(data[p]) {
        q := Take(data, p, FieldGeneral, s, aim);
      } else {
        NameEndHops(g, s, data[p]);
        Hop(data, p, FieldOtherwise, s, aim);
        q := p;
      }
    }

    /** The colon ends the name, which is reported without it. */
    method FieldOtherwiseByte(data: seq<byte>, p: nat, ghost s: Core, ghost aim: Aim) returns (q: nat)
      requires p < |data| && Now(data, p, s, aim) && st.FieldOtherwise?
      modifies this
      ensures Moved(data, p, q, aim, old(answers), old(Rank(st)))
    {
      hide Ahead, Moved, Heard, EndsInName;
      if data[p] == COLON {
        AheadByte(g, s, data, p);
        CloseSpan(data, p, p, p + 1, FieldDone, aim, Rank(s.st));
        q := p + 1;
      } else {
        Refuse(data, p, s, aim);
        q := p;
      }
    }

    method FieldColonByte(data: seq<byte>, p: nat, ghost s: Core, ghost aim: Aim) returns (q: nat)
      requires p < |data| && Now(data, p, s, aim) && st.FieldColon?
      modifies this
      ensures Moved(data, p, q, aim, old(answers), old(Rank(st)))
    {
      hide Moved, Reads, Heard, Step;
      if data[p] == SP || data[p] == COLON {
        q := NameEndByte(data, p, s, aim);
      } else {
        NameHops(g, s, data[p]);
        hs := General;
        Hop(data, p, FieldGeneral, s, aim);
        q := p;
      }
    }

    method NameEndByte(data: seq<byte>, p: nat, ghost s: Core, ghost aim: Aim) returns (q: nat)
      requires p < |data| && Now(data, p, s, aim) && st.FieldColon? && (data[p] == SP || data[p] == COLON)
      modifies this
      ensures Moved(data, p, q, aim, old(answers), Rank(s.st))
    {
      hide Ahead, Moved, Heard, EndsInName, InFieldGeneral;
      q := p + 1;
      if data[p] == SP {
        Spoil(data, p, p, p + 1, HPE_INVALID_HEADER_TOKEN, s, aim);
      } else {
        AheadByte(g, s, data, p);
        CloseSpan(data, p, p, p + 1, FieldDone, aim, Rank(s.st));
      }
    }

    method HeadersStartByte(data: seq<byte>, p: nat, ghost s: Core, ghost aim: Aim) returns (q: nat)
      requires p < |data| && Now(data, p, s, aim) && st.HeadersStart?
      modifies this
      ensures Moved(data, p, q, aim, old(answers), old(Rank(st)))
    {
      hide Moved, Reads, Heard, InFieldStart;
      q := p;
      if data[p] == SP {
        Reject(data, p, p + 1, HPE_UNEXPECTED_SPACE, s, aim);
      } else {
        NameStartHops(g, s, data[p]);
        Hop(data, p, FieldStart, s, aim);
      }
    }

    method FieldStartByte(data: seq<byte>, p: nat, ghost s: Core, ghost aim: Aim) returns (q: nat)
      requires p < |data| && Now(data, p, s, aim) && st.FieldStart?
      modifies this
      ensures Moved(data, p, q, aim, old(answers), old(Rank(st)))
    {
      hide Moved, Reads, Heard, InField;
      q := p;
      var b := data[p];
      if b == LF || b == COLON {
        Reject(data, p, if b == LF then p + 1 else p, HPE_INVALID_HEADER_TOKEN, s, aim);
      } else if b == CR {
        NoSpan(data, p);
        q := Skip(data, p, HeadersLf, s, aim);
      } else {
        StartName(data, p, s, aim);
      }
    }

    method StartName(data: seq<byte>, p: nat, ghost s: Core, ghost aim: Aim)
      requires p < |data| && Now(data, p, s, aim) && st.FieldStart? && data[p] != LF && data[p] != CR && data[p] != COLON
      modifies this`st, this`spanOpen, this`spanKind, this`spanPos
      ensures Moved(data, p, p, aim, answers, Rank(s.st))
    {
      hide Moved, Reads, Heard, Step;
      NameStartHops(g, s, data[p]);
      StartSpan(data, p, FieldSpan, s, aim);
      Hop(data, p, Field, s, aim);
    }

    lemma NoSpan(data: seq<byte>, p: nat)
      requires !spanOpen
      ensures At(data, p) == View()
    {
    }

    /* ---- header values ---------------------------------------------------------------------------- */

    method DiscardWsByte(data: seq<byte>, p: nat, ghost s: Core, ghost aim: Aim) returns (q: nat)
      requires p < |data| && Now(data, p, s, aim) && st.DiscardWs?
      modifies this
      ensures Moved(data, p, q, aim, old(answers), old(Rank(st)))
    {
      hide Moved, Reads, Heard, InValueStart;
      NoSpan(data, p);
      q := p;
      var b := data[p];
      if IsBlank(b) {
        q := Skip(data, p, DiscardWs, s, aim);
      } else if b == LF {
        Reject(data, p, p + 1, HPE_INVALID_HEADER_TOKEN, s, aim);
      } else if b == CR {
        q := Skip(data, p, DiscardWsLf, s, aim);
      } else {
        BlanksHop(g, s, b);
        Hop(data, p, ValueStart, s, aim);
      }
    }

    /** The states that want one particular byte and stop before any other. */
    method DiscardWsLfByte(data: seq<byte>, p: nat, ghost s: Core, ghost aim: Aim) returns (q: nat)
      requires p < |data| && Now(data, p, s, aim) && st.DiscardWsLf?
      modifies this
      ensures Moved(data, p, q, aim, old(answers), old(Rank(st)))
    {
      hide Moved, Reads, Heard;
      q := p;
      NoSpan(data, p);
      if data[p] != LF {
        Reject(data, p, p, HPE_STRICT, s, aim);
      } else {
        q := Skip(data, p, DiscardLws, s, aim);
      }
    }

    method ValueLfByte(data: seq<byte>, p: nat, ghost s: Core, ghost aim: Aim) returns (q: nat)
      requires p < |data| && Now(data, p, s, aim) && st.ValueLf?
      modifies this
      ensures Moved(data, p, q, aim, old(answers), old(Rank(st)))
    {
      hide Moved, Reads, Heard;
      q := p;
      NoSpan(data, p);
      if data[p] != LF {
        Reject(data, p, p, HPE_LF_EXPECTED, s, aim);
      } else {
        q := Skip(data, p, ValueLws, s, aim);
      }
    }

    method SectionEndByte(data: seq<byte>, p: nat, ghost s: Core, ghost aim: Aim) returns (q: nat)
      requires p < |data| && Now(data, p, s, aim) && st.HeadersLf?
      modifies this
      ensures Moved(data, p, q, aim, old(answers), old(Rank(st)))
    {
      hide Moved, Reads, Heard;
      q := p;
      NoSpan(data, p);
      if data[p] != LF {
        Reject(data, p, p, HPE_STRICT, s, aim);
      } else {
        q := Skip(data, p, if flags.trailing then TrailersDone else HeadersDone, s, aim);
      }
    }

    method ChunkLineByte(data: seq<byte>, p: nat, ghost s: Core, ghost aim: Aim) returns (q: nat)
      requires p < |data| && Now(data, p, s, aim) && (st.ChunkSizeLf? || st.ChunkDataLf?)
      modifies this
      ensures Moved(data, p, q, aim, old(answers), old(Rank(st)))
    {
      hide Moved, Reads, Heard;
      q := p;
      NoSpan(data, p);
      if data[p] != LF {
        Reject(data, p, p, HPE_STRICT, s, aim);
      } else {
        q := Skip(data, p, if st.ChunkSizeLf? then OnChunkHeader else ChunkDone, s, aim);
      }
    }

    /** Turn `header_state` into flags. */
    method ApplyHeaderState(ghost data: seq<byte>, ghost p: nat)
      modifies this`flags, this`hs
      ensures At(data, p) == old(ApplyToken(At(data, p)))
    {
      hide Heard;
      match hs {
        case TokenKeepAlive => flags, hs := flags.(keepAlive := true), Connection;
        case TokenClose => flags, hs := flags.(close := true), Connection;
        case TokenUpgrade => flags, hs := flags.(connUpgrade := true), Connection;
        case TokenChunked => flags := flags.(chunked := true);
        case _ =>
      }
    }

    /** After an empty value: it is reported all the same. */
    method DiscardLwsByte(data: seq<byte>, p: nat, ghost s: Core, ghost aim: Aim) returns (q: nat)
      requires p < |data| && Now(data, p, s, aim) && st.DiscardLws?
      modifies this
      ensures Moved(data, p, q, aim, old(answers), old(Rank(st)))
    {
      hide Moved, Heard, InFieldStart, ApplyToken, EndsInName, Ahead;
      q := p;
      if IsBlank(data[p]) {
        Reject(data, p, p + 1, HPE_INVALID_HEADER_TOKEN, s, aim);
      } else if hs.ContentLength? {
        Reject(data, p, p, HPE_INVALID_CONTENT_LENGTH, s, aim);
      } else {
        ApplyHeaderState(data, p);
        AheadHeader(g, s, ApplyToken(s), data, p);
        StartSpan(data, p, ValueSpan, s, aim);
        CloseSpan(data, p, p, p, ValueDone, aim, Rank(s.st));
      }
    }

    /** The value is complete and its tokens count. */
    method ValueLwsByte(data: seq<byte>, p: nat, ghost s: Core, ghost aim: Aim) returns (q: nat)
      requires p < |data| && Now(data, p, s, aim) && st.ValueLws?
      modifies this
      ensures Moved(data, p, q, aim, old(answers), old(Rank(st)))
    {
      hide Moved, Heard, InFieldStart, ApplyToken, EndsInName, Ahead;
      q := p;
      if IsBlank(data[p]) {
        Reject(data, p, p, HPE_INVALID_HEADER_TOKEN, s, aim);
      } else {
        ApplyHeaderState(data, p);
        AheadHeader(g, s, ApplyToken(s), data, p);
        GoOn(data, p, ValueDone, s, aim);
      }
    }

    /** Go to a state that does not take the next byte yet. */
    method GoOn(data: seq<byte>, p: nat, next: St, ghost s: Core, ghost aim: Aim)
      requires Reads(data, p, s, aim) && Fits(next, spanOpen, spanKind, index, length) && Rank(next) < Rank(s.st)
      requires Ahead(g, At(data, p).(st := next), data, p) == aim.end
      modifies this`st
      ensures Moved(data, p, p, aim, answers, Rank(s.st))
    {
      hide Ahead, Step, Spans, Fits, Rank, NeedsNoByte, Stopped, EndsInName;
      ghost var t := At(data, p).(st := next);
      st := next;
      assert At(data, p) == t;
    }

    /** The first byte of a value: the span opens and `header_state` tells how to read it. */
    method ValueStartByte(data: seq<byte>, p: nat, ghost s: Core, ghost aim: Aim) returns (q: nat)
      requires p < |data| && Now(data, p, s, aim) && st.ValueStart?
      modifies this
      ensures Moved(data, p, q, aim, old(answers), old(Rank(st)))
    {
      hide Step, Moved, Heard, Reads;
      StartSpan(data, p, ValueSpan, s, aim);
      q := p;
      if hs.ContentLength? {
        LengthValue(data, p, s, aim);
      } else if hs.TransferEncoding? {
        q := CodingValue(data, p, s, aim);
      } else {
        PlainValue(data, p, s, aim);
      }
    }

    /** A value whose span has just been opened. */
    ghost predicate Opened(data: seq<byte>, p: nat, s: Core, aim: Aim)
      reads this
    {
      spanOpen && spanKind == ValueSpan && spanPos == p && index == 0 && At(data, p) == s && st.ValueStart? && Reads(data, p, s, aim)
    }

    method PlainValue(data: seq<byte>, p: nat, ghost s: Core, ghost aim: Aim)
      requires p < |data| && Opened(data, p, s, aim) && !hs.ContentLength? && !hs.TransferEncoding?
      modifies this`st, this`flags, this`hs
      ensures Moved(data, p, p, aim, answers, Rank(s.st))
    {
      hide Step, Moved, Heard, Reads;
      ValueHops(g, s, data[p]);
      if hs.Upgrade? {
        flags, hs := flags.(upgrade := true), General;
      }
      Hop(data, p, if hs.Connection? then Conn else Value, s, aim);
    }

    method LengthValue(data: seq<byte>, p: nat, ghost s: Core, ghost aim: Aim)
      requires p < |data| && Opened(data, p, s, aim) && hs.ContentLength?
      modifies this`st, this`error, this`errorPos
      ensures Moved(data, p, p, aim, answers, Rank(s.st))
    {
      hide Moved, Heard, Reads, InLength;
      if flags.contentLength {
        Reject(data, p, p, HPE_UNEXPECTED_CONTENT_LENGTH, s, aim);
      } else {
        LengthHops(g, s, data[p]);
        Hop(data, p, Length, s, aim);
      }
    }

    method CodingValue(data: seq<byte>, p: nat, ghost s: Core, ghost aim: Aim) returns (q: nat)
      requires p < |data| && Opened(data, p, s, aim) && hs.TransferEncoding?
      modifies this
      ensures Moved(data, p, q, aim, old(answers), Rank(s.st))
    {
      hide Moved, Heard, Reads, InTeChunked;
      if flags.chunked {
        Spoil(data, p, p, p + 1, HPE_INVALID_TRANSFER_ENCODING, s, aim);
        q := p + 1;
      } else {
        StartCoding(data, p, s, aim);
        q := p;
      }
    }

    method StartCoding(data: seq<byte>, p: nat, ghost s: Core, ghost aim: Aim)
      requires p < |data| && Opened(data, p, s, aim) && hs.TransferEncoding? && !flags.chunked
      modifies this`st, this`flags
      ensures Moved(data, p, p, aim, answers, Rank(s.st))
    {
      hide Moved, Heard, Reads, Step;
      CodingHops(g, s, data[p]);
      flags := flags.(transferEncoding := true, chunked := false);
      Hop(data, p, TeChunked, s, aim);
    }

    method ValueByte(data: seq<byte>, p: nat, ghost s: Core, ghost aim: Aim) returns (q: nat)
      requires p < |data| && Now(data, p, s, aim) && st.Value?
      modifies this
      ensures Moved(data, p, q, aim, old(answers), old(Rank(st)))
    {
      hide Reads, Moved, Heard, InValueEnd;
      q := p;
      if IsFieldValue(data[p]) {
        q := Take(data, p, Value, s, aim);
      } else {
        ValueEndHops(g, s, data[p]);
        Hop(data, p, ValueEnd, s, aim);
      }
    }

    method ValueEndByte(data: seq<byte>, p: nat, ghost s: Core, ghost aim: Aim) returns (q: nat)
      requires p < |data| && Now(data, p, s, aim) && st.ValueEnd?
      modifies this
      ensures Moved(data, p, q, aim, old(answers), old(Rank(st)))
    {
      hide Moved, Heard, Ahead, EndsInName;
      q := p;
      if data[p] == CR {
        AheadByte(g, s, data, p);
        CloseSpan(data, p, p, p + 1, ValueLf, aim, Rank(s.st));
        q := p + 1;
      } else {
        Spoil(data, p, p, p, if data[p] == LF then HPE_CR_EXPECTED else HPE_INVALID_HEADER_TOKEN, s, aim);
      }
    }

    method LengthByte(data: seq<byte>, p: nat, ghost s: Core, ghost aim: Aim) returns (q: nat)
      requires p < |data| && Now(data, p, s, aim) && st.Length?
      modifies this
      ensures Moved(data, p, q, aim, old(answers), old(Rank(st)))
    {
      hide Moved, Heard, Reads, Step;
      if IsDigit(data[p]) {
        q := LengthDigitByte(data, p, s, aim);
      } else {
        LengthHops(g, s, data[p]);
        Hop(data, p, LengthWs, s, aim);
        q := p;
      }
    }

    method LengthDigitByte(data: seq<byte>, p: nat, ghost s: Core, ghost aim: Aim) returns (q: nat)
      requires p < |data| && Now(data, p, s, aim) && st.Length? && IsDigit(data[p])
      modifies this
      ensures Moved(data, p, q, aim, old(answers), Rank(s.st))
    {
      hide Moved, Heard, Ahead, MulAdd, AfterOverflow, InLengthWs, EndsInName;
      var n := MulAdd(length, 10, data[p] - 48);
      if n < 0 {
        length := AfterOverflow(length, 10);
        HeardMore(data, p, p + 1);
        SpanOfOne(spanKind, data, p);
        Spoil(data, p, p + 1, p + 1, HPE_INVALID_CONTENT_LENGTH, s, aim);
        q := p + 1;
      } else {
        length := n;
        q := Take(data, p, Length, s, aim);
      }
    }

    method LengthWsByte(data: seq<byte>, p: nat, ghost s: Core, ghost aim: Aim) returns (q: nat)
      requires p < |data| && Now(data, p, s, aim) && st.LengthWs?
      modifies this
      ensures Moved(data, p, q, aim, old(answers), old(Rank(st)))
    {
      hide Moved, Heard, Reads, InValueEnd;
      q := p;
      if data[p] == LF || data[p] == CR {
        LengthIsKnown(data, p, s, aim);
      } else if IsBlank(data[p]) {
        q := Take(data, p, LengthWs, s, aim);
      } else {
        Spoil(data, p, p, p, HPE_INVALID_CONTENT_LENGTH, s, aim);
      }
    }

    method LengthIsKnown(data: seq<byte>, p: nat, ghost s: Core, ghost aim: Aim)
      requires p < |data| && Now(data, p, s, aim) && st.LengthWs? && (data[p] == LF || data[p] == CR)
      modifies this`st, this`flags
      ensures Moved(data, p, p, aim, answers, Rank(s.st))
    {
      hide Moved, Heard, Reads, Step;
      LengthEndHops(g, s, data[p]);
      flags := flags.(contentLength := true);
      Hop(data, p, ValueEnd, s, aim);
    }

    /* ---- codings ---------------------------------------------------------------------------------- */

    method CodingKeyword(data: seq<byte>, p: nat, ghost s: Core, ghost aim: Aim) returns (q: nat)
      requires p < |data| && Now(data, p, s, aim) && st.TeChunked?
      modifies this
      ensures Moved(data, p, q, aim, old(answers), old(Rank(st)))
    {
      hide Step, Moved, Reads, Letters, Folded, Heard;
      var m, mid;
      ghost var t;
      m, mid, t := TakeWord(data, p, s, aim);
      q := mid;
      if !m.Pause? {
        if m.Complete? {
          q := CodingKnownByte(data, mid, t, aim);
        } else {
          CodingWordHops(g, t, data[mid]);
          Hop(data, mid, TeToken, t, aim);
        }
        MovedOn(data, p, mid, q, aim, old(answers), Rank(s.st));
      }
    }

    method CodingKnownByte(data: seq<byte>, p: nat, ghost s: Core, ghost aim: Aim) returns (q: nat)
      requires Reads(data, p, s, aim) && p < |data| && spanOpen && spanKind == ValueSpan && index == 0 && At(data, p) == s.(index := 0)
      requires s.st.TeChunked? && s.index + 1 == |Letters(Chunked)| && Folded(s.st, data[p]) == Letters(Chunked)[s.index]
      modifies this`st
      ensures Moved(data, p, q, aim, answers, Rank(s.st))
    {
      hide Step, Moved, Reads, Letters, Folded, Heard;
      CodingWordEnds(g, s, data[p]);
      q := Take(data, p, TeLast, s, aim);
    }

    method TeTokenByte(data: seq<byte>, p: nat, ghost s: Core, ghost aim: Aim) returns (q: nat)
      requires p < |data| && Now(data, p, s, aim) && st.TeToken?
      modifies this
      ensures Moved(data, p, q, aim, old(answers), old(Rank(st)))
    {
      hide Moved, Reads, Heard, InValue, IsFieldValue;
      q := p;
      if data[p] == COMMA || IsFieldValue(data[p]) {
        q := Take(data, p, if data[p] == COMMA then TeOws else TeToken, s, aim);
      } else {
        CodingEndHops(g, s, data[p]);
        hs := General;
        Hop(data, p, Value, s, aim);
      }
    }

    method TeOwsByte(data: seq<byte>, p: nat, ghost s: Core, ghost aim: Aim) returns (q: nat)
      requires p < |data| && Now(data, p, s, aim) && st.TeOws?
      modifies this
      ensures Moved(data, p, q, aim, old(answers), old(Rank(st)))
    {
      hide Moved, Reads, Heard, InTeChunked;
      q := p;
      if IsBlank(data[p]) {
        q := Take(data, p, TeOws, s, aim);
      } else {
        NextCodingHops(g, s, data[p]);
        Hop(data, p, TeChunked, s, aim);
      }
    }

    method TeLastByte(data: seq<byte>, p: nat, ghost s: Core, ghost aim: Aim) returns (q: nat)
      requires p < |data| && Now(data, p, s, aim) && st.TeLast?
      modifies this
      ensures Moved(data, p, q, aim, old(answers), old(Rank(st)))
    {
      hide Moved, Reads, Heard, Step;
      q := p;
      if data[p] == LF || data[p] == CR {
        CodingEndHops(g, s, data[p]);
        hs := TokenChunked;
        Hop(data, p, ValueEnd, s, aim);
      } else if data[p] == SP || data[p] == COMMA {
        q := CodingNextByte(data, p, s, aim);
      } else {
        NextCodingHops(g, s, data[p]);
        Hop(data, p, TeToken, s, aim);
      }
    }

    /** Nothing may follow `chunked`. */
    method CodingNextByte(data: seq<byte>, p: nat, ghost s: Core, ghost aim: Aim) returns (q: nat)
      requires p < |data| && Now(data, p, s, aim) && st.TeLast? && (data[p] == SP || data[p] == COMMA)
      modifies this
      ensures Moved(data, p, q, aim, old(answers), Rank(s.st))
    {
      hide Moved, Reads, Heard, InValueEnd, InTeToken;
      if data[p] == SP {
        q := Take(data, p, TeLast, s, aim);
      } else {
        Spoil(data, p, p, p + 1, HPE_INVALID_TRANSFER_ENCODING, s, aim);
        q := p + 1;
      }
    }

    /* ---- connection tokens ------------------------------------------------------------------------- */

    method ConnKeyword(data: seq<byte>, p: nat, ghost s: Core, ghost aim: Aim) returns (q: nat)
      requires p < |data| && Now(data, p, s, aim) && st.ConnWord?
      modifies this
      ensures Moved(data, p, q, aim, old(answers), old(Rank(st)))
    {
      hide Step, Moved, Reads, Letters, Folded, Heard, WordToken;
      var m, mid;
      ghost var t;
      m, mid, t := TakeWord(data, p, s, aim);
      q := mid;
      if !m.Pause? {
        if m.Complete? {
          q := ConnKnownByte(data, mid, st.word, t, aim);
        } else {
          OrdinaryToken(data, mid, t, aim);
        }
        MovedOn(data, p, mid, q, aim, old(answers), Rank(s.st));
      }
    }

    /** Not one of the known tokens after all. */
    method OrdinaryToken(data: seq<byte>, p: nat, ghost s: Core, ghost aim: Aim)
      requires Reads(data, p, s, aim) && p < |data| && spanOpen && spanKind == ValueSpan && index == 0 && At(data, p) == s.(index := 0)
      requires s.st.ConnWord? && s.index < |Letters(s.st.word)| && Folded(s.st, data[p]) != Letters(s.st.word)[s.index]
      modifies this`st
      ensures Moved(data, p, p, aim, answers, Rank(s.st))
    {
      hide Step, Moved, Reads, Letters, Folded, Heard;
      ConnWordHops(g, s, data[p]);
      Hop(data, p, ConnToken, s, aim);
    }

    /** The last letter of a token says which it is. */
    method ConnKnownByte(data: seq<byte>, p: nat, w: Word, ghost s: Core, ghost aim: Aim) returns (q: nat)
      requires Reads(data, p, s, aim) && p < |data| && spanOpen && spanKind == ValueSpan && index == 0 && At(data, p) == s.(index := 0)
      requires s.st == ConnWord(w) && s.index + 1 == |Letters(w)| && Folded(s.st, data[p]) == Letters(w)[s.index]
      modifies this`st, this`hs
      ensures Moved(data, p, q, aim, answers, Rank(s.st))
    {
      hide Step, Moved, Reads, Letters, Folded, Heard, WordToken;
      ConnWordEnds(g, s, data[p]);
      hs := WordToken(w);
      q := Take(data, p, ConnWs, s, aim);
    }

    method ConnByte(data: seq<byte>, p: nat, ghost s: Core, ghost aim: Aim) returns (q: nat)
      requires p < |data| && Now(data, p, s, aim) && st.Conn?
      modifies this
      ensures Moved(data, p, q, aim, old(answers), old(Rank(st)))
    {
      hide Moved, Reads, Heard, InConnToken, LowerByte, IsBlank;
      var c := LowerByte(data[p]);
      if IsBlank(data[p]) {
        q := Take(data, p, Conn, s, aim);
      } else if c in {99, 107, 117} {
        q := Take(data, p, ConnWord(if c == 99 then Lose else if c == 107 then EepAlive else Pgrade), s, aim);
      } else {
        ConnHops(g, s, data[p]);
        Hop(data, p, ConnToken, s, aim);
        q := p;
      }
    }

    method ConnTokenByte(data: seq<byte>, p: nat, ghost s: Core, ghost aim: Aim) returns (q: nat)
      requires p < |data| && Now(data, p, s, aim) && st.ConnToken?
      modifies this
      ensures Moved(data, p, q, aim, old(answers), old(Rank(st)))
    {
      hide Moved, Reads, Heard, InValueEnd, IsFieldValue;
      if data[p] == COMMA || IsFieldValue(data[p]) {
        q := Take(data, p, if data[p] == COMMA then Conn else ConnToken, s, aim);
      } else {
        ValueEndHops(g, s, data[p]);
        Hop(data, p, ValueEnd, s, aim);
        q := p;
      }
    }

    method ConnWsByte(data: seq<byte>, p: nat, ghost s: Core, ghost aim: Aim) returns (q: nat)
      requires p < |data| && Now(data, p, s, aim) && st.ConnWs?
      modifies this
      ensures Moved(data, p, q, aim, old(answers), old(Rank(st)))
    {
      hide Reads, Moved, Heard, Step;
      q := p;
      if data[p] == SP || data[p] == COMMA {
        q := ConnNextByte(data, p, s, aim);
      } else if data[p] == LF || data[p] == CR {
        ValueEndHops(g, s, data[p]);
        Hop(data, p, ValueEnd, s, aim);
      } else {
        ConnHops(g, s, data[p]);
        hs := General;
        Hop(data, p, ConnToken, s, aim);
      }
    }

    method ConnNextByte(data: seq<byte>, p: nat, ghost s: Core, ghost aim: Aim) returns (q: nat)
      requires p < |data| && Now(data, p, s, aim) && st.ConnWs? && (data[p] == SP || data[p] == COMMA)
      modifies this`st, this`flags, this`hs
      ensures Moved(data, p, q, aim, answers, Rank(s.st))
    {
      hide Reads, Moved, Heard, InValueEnd, InConnToken, ApplyToken;
      if data[p] == COMMA {
        ApplyHeaderState(data, p);
        q := Take(data, p, Conn, s, aim);
      } else {
        q := Take(data, p, ConnWs, s, aim);
      }
    }

    /* ---- chunks, bodies, lines ---------------------------------------------------------------------- */

    /** A chunk has at least one digit. */
    method FirstDigitByte(data: seq<byte>, p: nat, ghost s: Core, ghost aim: Aim) returns (q: nat)
      requires p < |data| && Now(data, p, s, aim) && st.ChunkDigit?
      modifies this
      ensures Moved(data, p, q, aim, old(answers), old(Rank(st)))
    {
      hide Moved, Reads, Heard, ChunkSizeDigit, IsHex;
      if IsHex(data[p]) {
        q := ChunkDigitByte(data, p, s, aim);
      } else {
        Reject(data, p, p, HPE_INVALID_CHUNK_SIZE, s, aim);
        q := p;
      }
    }

    method ChunkSizeByte(data: seq<byte>, p: nat, ghost s: Core, ghost aim: Aim) returns (q: nat)
      requires p < |data| && Now(data, p, s, aim) && st.ChunkSize?
      modifies this
      ensures Moved(data, p, q, aim, old(answers), old(Rank(st)))
    {
      hide Moved, Reads, Heard, Step, IsHex;
      if IsHex(data[p]) {
        q := ChunkDigitByte(data, p, s, aim);
      } else {
        ChunkSizeHops(g, s, data[p]);
        Hop(data, p, ChunkSizeEnd, s, aim);
        q := p;
      }
    }

    method ChunkDigitByte(data: seq<byte>, p: nat, ghost s: Core, ghost aim: Aim) returns (q: nat)
      requires p < |data| && Now(data, p, s, aim) && (st.ChunkDigit? || st.ChunkSize?) && IsHex(data[p])
      modifies this`st, this`error, this`errorPos, this`length
      ensures Moved(data, p, q, aim, answers, Rank(s.st))
    {
      hide Moved, Reads, Heard, InChunkSizeEnd, MulAdd, AfterOverflow, HexValue, IsHex;
      NoSpan(data, p);
      var n := MulAdd(length, 16, HexValue(data[p]));
      if n < 0 {
        length := AfterOverflow(length, 16);
        Reject(data, p, p + 1, HPE_INVALID_CHUNK_SIZE, s, aim);
        q := p;
      } else {
        length := n;
        q := Skip(data, p, ChunkSize, s, aim);
      }
    }

    method ChunkSizeEndByte(data: seq<byte>, p: nat, ghost s: Core, ghost aim: Aim) returns (q: nat)
      requires p < |data| && Now(data, p, s, aim) && st.ChunkSizeEnd?
      modifies this
      ensures Moved(data, p, q, aim, old(answers), old(Rank(st)))
    {
      hide Moved, Reads, Heard;
      NoSpan(data, p);
      q := p;
      if data[p] == CR {
        q := Skip(data, p, ChunkSizeLf, s, aim);
      } else if data[p] == SEMICOLON {
        q := StartExt(data, p, s, aim);
      } else {
        Reject(data, p, if data[p] == LF || IsBlank(data[p]) then p + 1 else p,
               if data[p] == LF then HPE_CR_EXPECTED else HPE_INVALID_CHUNK_SIZE, s, aim);
      }
    }

    method StartExt(data: seq<byte>, p: nat, ghost s: Core, ghost aim: Aim) returns (q: nat)
      requires Reads(data, p, s, aim) && p < |data| && !spanOpen && index == 0
      requires Step(g, s, data[p]) == View().(st := Ext, token := [])
      modifies this`st, this`token
      ensures Moved(data, p, q, aim, answers, Rank(s.st))
    {
      hide Step, Moved, Reads;
      token := [];
      q := Skip(data, p, Ext, s, aim);
    }

    method LineByte(data: seq<byte>, p: nat, ghost s: Core, ghost aim: Aim) returns (q: nat)
      requires p < |data| && Now(data, p, s, aim) && st.Line?
      modifies this
      ensures Moved(data, p, q, aim, old(answers), old(Rank(st)))
    {
      hide Moved, Reads, Heard;
      NoSpan(data, p);
      token := token + [data[p]];
      q := p;
      match g.line(token) {
        case More =>
          q := Skip(data, p, Line, s, aim);
        case Done(c, v, w) =>
          q := LineEnd(data, p, c, v, w, s, aim);
        case Bad(code) =>
          Reject(data, p, p + 1, code, s, aim);
      }
    }

    method LineEnd(data: seq<byte>, p: nat, c: bool, v: nat, w: nat, ghost s: Core, ghost aim: Aim) returns (q: nat)
      requires Reads(data, p, s, aim) && p < |data| && !spanOpen && index == 0
      requires Step(g, s, data[p]) == View().(st := HeadersStart, connect := c, major := v, minor := w)
      modifies this`st, this`connect, this`major, this`minor
      ensures Moved(data, p, q, aim, answers, Rank(s.st))
    {
      hide Step, Moved, Reads;
      connect, major, minor := c, v, w;
      q := Skip(data, p, HeadersStart, s, aim);
    }

    method ExtByte(data: seq<byte>, p: nat, ghost s: Core, ghost aim: Aim) returns (q: nat)
      requires p < |data| && Now(data, p, s, aim) && st.Ext?
      modifies this
      ensures Moved(data, p, q, aim, old(answers), old(Rank(st)))
    {
      hide Moved, Reads, Heard;
      NoSpan(data, p);
      token := token + [data[p]];
      q := p;
      match g.ext(token) {
        case More =>
          q := Skip(data, p, Ext, s, aim);
        case Done(_, _, _) =>
          q := Skip(data, p, ChunkSizeLf, s, aim);
        case Bad(code) =>
          Reject(data, p, p + 1, code, s, aim);
      }
    }

    method ChunkDataCrByte(data: seq<byte>, p: nat, ghost s: Core, ghost aim: Aim) returns (q: nat)
      requires p < |data| && Now(data, p, s, aim) && st.ChunkDataCr?
      modifies this
      ensures Moved(data, p, q, aim, old(answers), old(Rank(st)))
    {
      hide Moved, Reads, Heard;
      NoSpan(data, p);
      q := p;
      if data[p] == CR {
        q := Skip(data, p, ChunkDataLf, s, aim);
      } else {
        Reject(data, p, if data[p] == LF then p + 1 else p, if data[p] == LF then HPE_CR_EXPECTED else HPE_STRICT, s, aim);
      }
    }

    /** The state of a body after its first state. */
    function Underway(st: St): St {
      if st.BodyStart? then Body else if st.ChunkStart? then ChunkData else EofBody
    }

    lemma BodyFits(st: St, index: nat, length: nat)
      requires (st.BodyStart? || st.ChunkStart? || st.EofStart?) && Aligned(st, index, length)
      ensures Fits(Underway(st), true, BodySpan, index, length) && Rank(Underway(st)) < Rank(st) && !NeedsNoByte(Underway(st))
    {
    }

    method StartOfBody(data: seq<byte>, p: nat, ghost s: Core, ghost aim: Aim) returns (q: nat)
      requires p < |data| && Now(data, p, s, aim) && (st.BodyStart? || st.ChunkStart? || st.EofStart?)
      modifies this
      ensures Moved(data, p, q, aim, old(answers), old(Rank(st)))
    {
      hide Moved, Reads, Heard, Step, Rank;
      q := p;
      if st.BodyStart? {
        BodyHops(g, s, data[p]);
      } else if st.ChunkStart? {
        ChunkHops(g, s, data[p]);
      } else {
        EofHops(g, s, data[p]);
      }
      StartSpan(data, p, BodySpan, s, aim);
      BodyFits(st, index, length);
      Hop(data, p, Underway(st), s, aim);
    }

    /** `consume_content_length`: take as much of the block as the data holds. */
    method Consume(data: seq<byte>, p: nat, ghost s: Core, ghost aim: Aim) returns (q: nat)
      requires p < |data| && Now(data, p, s, aim) && (st.Body? || st.ChunkData?)
      modifies this
      ensures Moved(data, p, q, aim, old(answers), old(Rank(st)))
    {
      hide Heard, Moved, Ahead, EndsInName, Spans, Feed;
      var avail := |data| - p;
      q := if avail >= length then p + length else |data|;
      AheadBlock(s, data, p, q);
      HeardMore(data, p, q);
      if avail >= length {
        length := 0;
        CloseSpan(data, p, q, q, Beyond(st), aim, Rank(s.st));
      } else {
        length := length - avail;
        StayInside(data, p, q, aim, Rank(s.st));
      }
    }

    /** The data ends inside the block. */
    lemma StayInside(data: seq<byte>, p: nat, q: nat, aim: Aim, rank: nat)
      requires error == 0 && p < q == |data| && spanOpen && spanPos <= q && Tidy(aim) && Fits(st, true, spanKind, index, length)
      requires Ahead(g, At(data, q), data, q) == aim.end
      ensures Moved(data, p, q, aim, answers, rank)
    {
      hide Fits, Ahead, EndsInName, Rank;
    }

    /** All of a block is read, even if its last byte brings an upgrade. */
    lemma BlockReads(s: Core, d: seq<byte>)
      requires (s.st.Body? || s.st.ChunkData?) && 0 < |d| <= s.length
      ensures StopAt(g, s, d) == |d|
    {
      hide Settle, Spans, Feed, StopAt;
      var k := |d| - 1;
      assert d == d[..k] + [d[k]];
      BodyBlock(g, s, d[..k]);
      BodyBlock(g, s, d);
      SettleKeepsNames(s.(st := Beyond(s.st), length := 0, log := s.log + Spans(BodySpan, d)));
      ReadsLast(g, s, d[..k], d[k]);
    }

    lemma AheadBlock(s: Core, data: seq<byte>, p: nat, q: nat)
      requires p < q <= |data| && (s.st.Body? || s.st.ChunkData?) && q - p <= s.length
      ensures
        var t := s.(st := if q - p < s.length then s.st else Beyond(s.st), length := s.length - (q - p),
                    log := s.log + Spans(BodySpan, data[p..q]));
        Ahead(g, s, data, p) == Ahead(g, t, data, q)
    {
      hide Ahead, Settle, Spans, Feed;
      var t := s.(st := if q - p < s.length then s.st else Beyond(s.st), length := s.length - (q - p),
                  log := s.log + Spans(BodySpan, data[p..q]));
      BodyBlock(g, s, data[p..q]);
      SettleKeepsNames(t);
      BlockReads(s, data[p..q]);
      AheadStretch(g, s, data, p, q);
      AheadSettled(g, t, data, q);
    }

    method EofByte(data: seq<byte>, p: nat, ghost s: Core, ghost aim: Aim) returns (q: nat)
      requires p < |data| && Now(data, p, s, aim) && st.EofBody?
      modifies this
      ensures Moved(data, p, q, aim, old(answers), old(Rank(st)))
    {
      hide Moved, Reads, Heard;
      q := Take(data, p, EofBody, s, aim);
    }

    method BetweenMessages(data: seq<byte>, p: nat, ghost s: Core, ghost aim: Aim) returns (q: nat)
      requires p < |data| && Now(data, p, s, aim) && (st.Start? || st.Closed?)
      modifies this
      ensures Moved(data, p, q, aim, old(answers), old(Rank(st)))
    {
      hide Moved, Heard, Ahead, EndsInName, InLine;
      NoSpan(data, p);
      q := p;
      if data[p] == CR || data[p] == LF {
        q := Skip(data, p, st, s, aim);
      } else if st.Closed? {
        Reject(data, p, p + 1, HPE_CLOSED_CONNECTION, s, aim);
      } else {
        AheadStart(g, s, data, p);
        GoOn(data, p, if seen then OnReset else OnBegin, s, aim);
      }
    }

    /* ---- states that need no byte --------------------------------------------------------------------- */

    method InvokeBegin(data: seq<byte>, p: nat, ghost s: Core, ghost aim: Aim)
      requires Due(data, p, s, aim) && (st.OnReset? || st.OnBegin?)
      modifies this
      ensures Moved(data, p, p, aim, old(answers), old(Rank(st)))
    {
      hide Moved, Moves, Tidy;
      if st.OnReset? {
        Call(data, p, Reset, OnBegin, s, aim);
      } else {
        token := [];
        Call(data, p, MessageBegin, Line, s, aim);
      }
    }

    method InvokeHeader(data: seq<byte>, p: nat, ghost s: Core, ghost aim: Aim)
      requires Due(data, p, s, aim) && (st.FieldDone? || st.ValueDone?)
      modifies this
      ensures Moved(data, p, p, aim, old(answers), old(Rank(st)))
    {
      hide Moved, Moves, Tidy;
      if st.FieldDone? {
        Call(data, p, FieldComplete, FieldKnown, s, aim);
      } else {
        Call(data, p, ValueComplete, FieldStart, s, aim);
      }
    }

    method InvokeChunkHeader(data: seq<byte>, p: nat, ghost s: Core, ghost aim: Aim)
      requires Due(data, p, s, aim) && st.OnChunkHeader?
      modifies this
      ensures Moved(data, p, p, aim, old(answers), old(Rank(st)))
    {
      hide Moved, Moves, Tidy;
      Call(data, p, ChunkHeader(length), ChunkKind, s, aim);
    }

    method InvokeChunkComplete(data: seq<byte>, p: nat, ghost s: Core, ghost aim: Aim)
      requires Due(data, p, s, aim) && (st.ChunkDone? || st.TrailersDone?)
      modifies this
      ensures Moved(data, p, p, aim, old(answers), old(Rank(st)))
    {
      hide Moved, Moves, Tidy;
      Call(data, p, ChunkComplete, if st.ChunkDone? then ChunkClear else BodyComplete, s, aim);
    }

    /** `on_headers_complete`, after `llhttp__before_headers_complete` has set `upgrade`. */
    method InvokeHeadersComplete(data: seq<byte>, p: nat, ghost s: Core, ghost aim: Aim)
      requires Due(data, p, s, aim) && st.HeadersDone?
      modifies this
      ensures Moved(data, p, p, aim, old(answers), old(Rank(st)))
    {
      hide Moved, Moves, Tidy;
      upgrade := if flags.upgrade && flags.connUpgrade then true else connect;
      Call(data, p, HeadersComplete, AfterHeaders, s, aim);
    }

    method InvokeMessageComplete(data: seq<byte>, p: nat, ghost s: Core, ghost aim: Aim)
      requires Due(data, p, s, aim) && (st.NoBodyComplete? || st.BodyComplete?)
      modifies this
      ensures Moved(data, p, p, aim, old(answers), old(Rank(st)))
    {
      hide Moved, Moves, Tidy;
      Call(data, p, MessageComplete, if st.NoBodyComplete? then AfterMessage else CheckUpgrade, s, aim);
    }

    method InvokeUpgradeComplete(data: seq<byte>, p: nat, ghost s: Core, ghost aim: Aim)
      requires Due(data, p, s, aim) && st.UpgradeComplete?
      modifies this
      ensures Moved(data, p, p, aim, old(answers), old(Rank(st)))
    {
      hide Moved, Moves, Tidy;
      Call(data, p, MessageComplete, GoUpgrade, s, aim);
    }

    method InvokeFieldKnown(data: seq<byte>, p: nat, ghost s: Core, ghost aim: Aim)
      requires Due(data, p, s, aim) && st.FieldKnown?
      modifies this
      ensures Moved(data, p, p, aim, old(answers), old(Rank(st)))
    {
      hide Moved, Moves, Tidy;
      if hs.ContentLength? && flags.transferEncoding {
        RejectNow(data, p, HPE_INVALID_CONTENT_LENGTH, s, aim);
      } else if hs.TransferEncoding? && flags.contentLength {
        RejectNow(data, p, HPE_INVALID_TRANSFER_ENCODING, s, aim);
      } else {
        Advance(data, p, DiscardWs, s, aim);
      }
    }

    method InvokeAfterHeaders(data: seq<byte>, p: nat, ghost s: Core, ghost aim: Aim)
      requires Due(data, p, s, aim) && st.AfterHeaders?
      modifies this
      ensures Moved(data, p, p, aim, old(answers), old(Rank(st)))
    {
      hide Moved, Moves, Tidy, AfterHeadersComplete;
      var code := AfterHeadersComplete(Request, flags, false, upgrade, connect, length);
      KnownBodiesHaveBytes(flags, upgrade, connect, length);
      if code == 5 {
        RejectNow(data, p, HPE_INVALID_TRANSFER_ENCODING, s, aim);
      } else {
        var next := if code == 1 then UpgradeComplete else if code == 2 then ChunkClear else if code == 3 then BodyStart
                    else if code == 4 then EofStart else NoBodyComplete;
        Advance(data, p, next, s, aim);
      }
    }

    method InvokeChunkClear(data: seq<byte>, p: nat, ghost s: Core, ghost aim: Aim)
      requires Due(data, p, s, aim) && st.ChunkClear?
      modifies this
      ensures Moved(data, p, p, aim, old(answers), old(Rank(st)))
    {
      hide Moved, Moves, Tidy;
      length := 0;
      Advance(data, p, ChunkDigit, s, aim);
    }

    method InvokeChunkKind(data: seq<byte>, p: nat, ghost s: Core, ghost aim: Aim)
      requires Due(data, p, s, aim) && st.ChunkKind?
      modifies this
      ensures Moved(data, p, p, aim, old(answers), old(Rank(st)))
    {
      hide Moved, Moves, Tidy;
      if length == 0 {
        flags := flags.(trailing := true);
        Advance(data, p, FieldStart, s, aim);
      } else {
        Advance(data, p, ChunkStart, s, aim);
      }
    }

    method InvokeCheckUpgrade(data: seq<byte>, p: nat, ghost s: Core, ghost aim: Aim)
      requires Due(data, p, s, aim) && st.CheckUpgrade?
      modifies this
      ensures Moved(data, p, p, aim, old(answers), old(Rank(st)))
    {
      hide Moved, Moves, Tidy;
      Advance(data, p, if upgrade then GoUpgrade else AfterMessage, s, aim);
    }

    method InvokeAfterMessage(data: seq<byte>, p: nat, ghost s: Core, ghost aim: Aim)
      requires Due(data, p, s, aim) && st.AfterMessage?
      modifies this
      ensures Moved(data, p, p, aim, old(answers), old(Rank(st)))
    {
      hide Moved, Moves, Tidy, ShouldKeepAlive;
      if ShouldKeepAlive(Request, flags, false, major, minor) {
        StartOver(data, p, s, aim);
      } else {
        flags := NO_FLAGS;
        Advance(data, p, Closed, s, aim);
      }
    }

    method StartOver(data: seq<byte>, p: nat, ghost s: Core, ghost aim: Aim)
      requires Due(data, p, s, aim) && st.AfterMessage? && ShouldKeepAlive(Request, flags, false, major, minor)
      modifies this`st, this`flags, this`length, this`seen
      ensures Moved(data, p, p, aim, answers, Rank(s.st))
    {
      hide Moved, Moves, Tidy, ShouldKeepAlive;
      flags, length, seen := NO_FLAGS, 0, true;
      Advance(data, p, Start, s, aim);
    }

    /** A failure whose span has been reported. */
    method InvokeFailure(data: seq<byte>, p: nat, ghost s: Core, ghost aim: Aim)
      requires Due(data, p, s, aim) && st.GoFail?
      modifies this
      ensures Moved(data, p, p, aim, old(answers), old(Rank(st)))
    {
      hide Moved, Moves, Tidy;
      RejectNow(data, p, st.code, s, aim);
    }

    /** A pause for the upgrade; should the caller resume, the message is treated as over. */
    method InvokeUpgrade(data: seq<byte>, p: nat, ghost s: Core, ghost aim: Aim)
      requires Due(data, p, s, aim) && st.GoUpgrade?
      modifies this
      ensures Moved(data, p, p, aim, old(answers), old(Rank(st)))
    {
      hide Ahead, Going, Interrupted, EndsInName, Seen, NameLength;
      AheadOver(g, s, data, p);
      error, errorPos, st := HPE_PAUSED_UPGRADE, p, AfterMessage;
      assert Ended(aim);
    }

    /* ---- the run ---------------------------------------------------------------------------------------- */

    lemma GoingReads(data: seq<byte>, p: nat, aim: Aim)
      requires Going(data, p, aim) && p < |data| && !NeedsNoByte(st)
      ensures Now(data, p, At(data, p), aim)
    {
      hide Ahead, Spanning, KindIn, Aligned, Heard, EndsInName;
    }

    lemma GoingDue(data: seq<byte>, p: nat, aim: Aim)
      requires Going(data, p, aim) && NeedsNoByte(st)
      ensures Due(data, p, View(), aim)
    {
      hide Ahead, EndsInName;
    }

    method Invoke(data: seq<byte>, p: nat, ghost aim: Aim)
      requires Going(data, p, aim) && NeedsNoByte(st)
      modifies this
      ensures Moved(data, p, p, aim, old(answers), old(Rank(st)))
    {
      hide Going, Due, Moved, Rank;
      GoingDue(data, p, aim);
      ghost var s := View();
      match st {
        case OnReset => InvokeBegin(data, p, s, aim);
        case OnBegin => InvokeBegin(data, p, s, aim);
        case FieldDone => InvokeHeader(data, p, s, aim);
        case ValueDone => InvokeHeader(data, p, s, aim);
        case FieldKnown => InvokeFieldKnown(data, p, s, aim);
        case HeadersDone => InvokeHeadersComplete(data, p, s, aim);
        case AfterHeaders => InvokeAfterHeaders(data, p, s, aim);
        case OnChunkHeader => InvokeChunkHeader(data, p, s, aim);
        case ChunkDone => InvokeChunkComplete(data, p, s, aim);
        case TrailersDone => InvokeChunkComplete(data, p, s, aim);
        case ChunkClear => InvokeChunkClear(data, p, s, aim);
        case ChunkKind => InvokeChunkKind(data, p, s, aim);
        case NoBodyComplete => InvokeMessageComplete(data, p, s, aim);
        case BodyComplete => InvokeMessageComplete(data, p, s, aim);
        case UpgradeComplete => InvokeUpgradeComplete(data, p, s, aim);
        case CheckUpgrade => InvokeCheckUpgrade(data, p, s, aim);
        case AfterMessage => InvokeAfterMessage(data, p, s, aim);
        case GoUpgrade => InvokeUpgrade(data, p, s, aim);
        case GoFail(_) => InvokeFailure(data, p, s, aim);
      }
    }

    predicate InHeader(st: St) {
      || (Spanning(st) && KindIn(st).FieldSpan?) || st.HeadersStart? || st.FieldStart? || st.DiscardWs? || st.DiscardWsLf?
      || st.DiscardLws? || st.ValueStart? || st.ValueLf? || st.ValueLws?
    }

    method VisitHeader(data: seq<byte>, p: nat, ghost s: Core, ghost aim: Aim) returns (q: nat)
      requires p < |data| && Now(data, p, s, aim) && InHeader(st)
      modifies this
      ensures Moved(data, p, q, aim, old(answers), old(Rank(st)))
    {
      hide Now, Moved, Rank;
      match st {
        case HeadersStart => q := HeadersStartByte(data, p, s, aim);
        case FieldStart => q := FieldStartByte(data, p, s, aim);
        case Field => q := FieldByte(data, p, s, aim);
        case FieldCo => q := FieldCoByte(data, p, s, aim);
        case FieldWord(_) => q := FieldKeyword(data, p, s, aim);
        case FieldColon => q := FieldColonByte(data, p, s, aim);
        case FieldGeneral => q := FieldGeneralByte(data, p, s, aim);
        case FieldOtherwise => q := FieldOtherwiseByte(data, p, s, aim);
        case DiscardWs => q := DiscardWsByte(data, p, s, aim);
        case DiscardWsLf => q := DiscardWsLfByte(data, p, s, aim);
        case DiscardLws => q := DiscardLwsByte(data, p, s, aim);
        case ValueStart => q := ValueStartByte(data, p, s, aim);
        case ValueLf => q := ValueLfByte(data, p, s, aim);
        case ValueLws => q := ValueLwsByte(data, p, s, aim);
      }
    }

    method VisitValue(data: seq<byte>, p: nat, ghost s: Core, ghost aim: Aim) returns (q: nat)
      requires p < |data| && Now(data, p, s, aim) && Spanning(st) && KindIn(st).ValueSpan?
      modifies this
      ensures Moved(data, p, q, aim, old(answers), old(Rank(st)))
    {
      hide Now, Moved, Rank;
      match st {
        case Value => q := ValueByte(data, p, s, aim);
        case ValueEnd => q := ValueEndByte(data, p, s, aim);
        case Length => q := LengthByte(data, p, s, aim);
        case LengthWs => q := LengthWsByte(data, p, s, aim);
        case TeChunked => q := CodingKeyword(data, p, s, aim);
        case TeToken => q := TeTokenByte(data, p, s, aim);
        case TeOws => q := TeOwsByte(data, p, s, aim);
        case TeLast => q := TeLastByte(data, p, s, aim);
        case Conn => q := ConnByte(data, p, s, aim);
        case ConnWord(_) => q := ConnKeyword(data, p, s, aim);
        case ConnToken => q := ConnTokenByte(data, p, s, aim);
        case ConnWs => q := ConnWsByte(data, p, s, aim);
      }
    }

    method VisitBody(data: seq<byte>, p: nat, ghost s: Core, ghost aim: Aim) returns (q: nat)
      requires p < |data| && Now(data, p, s, aim)
      requires st.Start? || st.Closed? || st.Line? || st.Ext? || st.ChunkDigit? || st.ChunkSize? || st.ChunkSizeEnd? || st.HeadersLf?
            || st.ChunkSizeLf? || st.ChunkDataLf? || st.ChunkDataCr? || st.BodyStart? || st.ChunkStart? || st.EofStart?
            || st.Body? || st.ChunkData? || st.EofBody?
      modifies this
      ensures Moved(data, p, q, aim, old(answers), old(Rank(st)))
    {
      hide Now, Moved, Rank;
      match st {
        case Start => q := BetweenMessages(data, p, s, aim);
        case Closed => q := BetweenMessages(data, p, s, aim);
        case Line => q := LineByte(data, p, s, aim);
        case Ext => q := ExtByte(data, p, s, aim);
        case ChunkDigit => q := FirstDigitByte(data, p, s, aim);
        case ChunkSize => q := ChunkSizeByte(data, p, s, aim);
        case ChunkSizeEnd => q := ChunkSizeEndByte(data, p, s, aim);
        case HeadersLf => q := SectionEndByte(data, p, s, aim);
        case ChunkSizeLf => q := ChunkLineByte(data, p, s, aim);
        case ChunkDataLf => q := ChunkLineByte(data, p, s, aim);
        case ChunkDataCr => q := ChunkDataCrByte(data, p, s, aim);
        case BodyStart => q := StartOfBody(data, p, s, aim);
        case ChunkStart => q := StartOfBody(data, p, s, aim);
        case EofStart => q := StartOfBody(data, p, s, aim);
        case Body => q := Consume(data, p, s, aim);
        case ChunkData => q := Consume(data, p, s, aim);
        case EofBody => q := EofByte(data, p, s, aim);
      }
    }

    /** One state of `llhttp__internal__run`. */
    method Visit(data: seq<byte>, p: nat, ghost aim: Aim) returns (q: nat)
      requires Going(data, p, aim) && (NeedsNoByte(st) || p < |data|)
      modifies this
      ensures Moved(data, p, q, aim, old(answers), old(Rank(st)))
    {
      hide Now, Moved, Rank, Ahead, Tidy, Aligned;
      if NeedsNoByte(st) {
        q := p;
        Invoke(data, p, aim);
      } else {
        GoingReads(data, p, aim);
        ghost var s := At(data, p);
        if Spanning(st) && KindIn(st).ValueSpan? {
          q := VisitValue(data, p, s, aim);
        } else if InHeader(st) {
          q := VisitHeader(data, p, s, aim);
        } else {
          q := VisitBody(data, p, s, aim);
        }
      }
    }

    /** `llhttp__internal__run`, from the start of the data to its end or to the first error. */
    method Run(data: seq<byte>, ghost aim: Aim)
      requires Going(data, 0, aim)
      modifies this
      ensures if error == 0 then Going(data, |data|, aim) && !NeedsNoByte(st) && old(answers) <= answers && Quiet(old(answers))
                                 && (data == [] ==> st == old(st) || Rank(st) < old(Rank(st)))
              else Stopped(data, aim, old(answers)) && (errorPos == 0 && error == HPE_PAUSED ==> Rank(st) < old(Rank(st)))
    {
      hide Ahead, Rank, NeedsNoByte, Tidy, Fits, Heard, Ended, Interrupted;
      var p := 0;
      ghost var past := answers;
      while error == 0 && (NeedsNoByte(st) || p < |data|)
        invariant if error == 0 then Going(data, p, aim) && past <= answers && Quiet(past)
                                   && (p == 0 ==> st == old(st) || Rank(st) < old(Rank(st)))
                  else Stopped(data, aim, past) && (errorPos == 0 && error == HPE_PAUSED ==> Rank(st) < old(Rank(st)))
        decreases error == 0, |data| - p, Rank(st)
      {
        ghost var mid := answers;
        var q := Visit(data, p, aim);
        if error != 0 {
          StoppedSince(data, aim, past, mid);
        }
        p := q;
      }
    }

    /** Nothing but zeros before: the stop is the same seen from an earlier call. */
    lemma StoppedSince(data: seq<byte>, aim: Aim, past: seq<int>, mid: seq<int>)
      requires past <= mid && (forall i :: |past| <= i < |mid| ==> mid[i] == 0) && Stopped(data, aim, mid)
      ensures Stopped(data, aim, past)
    {
      hide Ended, Resumes, Resting, CallbackError, SpanError;
      if Quiet(mid) {
        assert Quiet(past);
      } else {
        assert answers[|answers| - 1] != 0;
      }
    }

    /** Report what is left of the open span when the data ends inside it. */
    method Flush(data: seq<byte>, ghost aim: Aim)
      requires Going(data, |data|, aim) && !NeedsNoByte(st)
      modifies this`error, this`errorPos, this`answers, this`log
      ensures old(answers) <= answers
      ensures if error == 0 then Resting() && Quiet(old(answers)) && View() == aim.end.core
              else errorPos == |data| && Stopped(data, aim, old(answers))
    {
      hide Ahead, Settle, Spans, EndsInName, Spanning, KindIn, Aligned, SpanError, Stopped;
      AheadEnd(g, At(data, |data|), data);
      SettledAlready(At(data, |data|));
      if spanOpen {
        SpanEnds(log, spanKind, data[spanPos..|data|]);
        log := log + Spans(spanKind, data[spanPos..|data|]);
        var r := reply(|answers|);
        answers := answers + [r];
        if r != 0 {
          error, errorPos := SpanError(r), |data|;
          StoppedByAnswer(data, aim, old(answers), r);
        }
      }
    }

    /** `llhttp__internal_execute`. Without an error the parser is where the byte function is; with one,
        the call has ended in one of the ways of `Stopped`. */
    method Execute(data: seq<byte>) returns (r: int)
      requires error == 0 ==> Resting()
      modifies this
      ensures r == error && (old(error) != 0 ==> r == old(error) && unchanged(this))
      ensures old(error) == 0 ==>
        var aim := Aim(Ahead(g, old(View()), data, 0), old(spanOpen && spanKind.FieldSpan?));
        if error == 0 then Resting() && old(answers) <= answers && Quiet(old(answers)) && View() == aim.end.core
        else
          && Stopped(data, aim, old(answers))
          && (data != [] || NeedsNoByte(old(st)) ==> errorPos == 0 && error == HPE_PAUSED ==> Rank(st) < old(Rank(st)))
    {
      hide Ahead, Spans, Rank, Ended, Interrupted, Fits, EndsInName, NeedsNoByte;
      if error != 0 {
        return error;
      }
      ghost var aim := Aim(Ahead(g, View(), data, 0), spanOpen && spanKind.FieldSpan?);
      RestingFits();
      if spanOpen {
        SpansOfNothing(spanKind, data, 0);
        spanPos := 0;
      }
      assert At(data, 0) == old(View());
      Run(data, aim);
      if error == 0 {
        ghost var mid := answers;
        Flush(data, aim);
        if error != 0 {
          StoppedSince(data, aim, old(answers), mid);
        }
      }
      r := error;
    }

    lemma RestingFits()
      requires Resting()
      ensures Fits(st, spanOpen, spanKind, index, length)
    {
    }

    /** `llhttp_resume` */
    method Resume()
      modifies this`error
      ensures error == if old(error) == HPE_PAUSED then 0 else old(error)
    {
      if error == HPE_PAUSED {
        error := 0;
      }
    }

    /** At the end of a run to `goal`. */
    ghost predicate Arrived(goal: Core)
      reads this
    {
      && error == ErrorOf(goal)
      && View().(st := if error == HPE_PAUSED_UPGRADE then Upgraded else st, log := goal.log) == goal
      && (error == HPE_PAUSED_UPGRADE ==> st.AfterMessage?)
    }

    /** Reading has stopped at a known position: before the byte refused in a name, or before the first byte
        of the other protocol. */
    predicate Stops(goal: Core) {
      goal.st.NameFailed? || goal.st.Upgraded?
    }

    lemma EndedArrives(aim: Aim, data: seq<byte>, past: seq<int>)
      requires Stopped(data, aim, past) && Quiet(past)
      ensures Arrived(aim.end.core) && log == Seen(aim.end) && ErrorOf(aim.end.core) == error != 0
      ensures Stops(aim.end.core) ==> errorPos == aim.end.at
    {
      hide Resting, NameLength, Min, Interrupted;
    }

    /** A whole stream in any pieces, up to the first error. When no callback objects, where it ends
        depends on the bytes alone, and what the callbacks have seen is what `SeenBy` says. */
    method ExecuteAll(pieces: seq<seq<byte>>) returns (n: nat)
      requires error == 0 && Resting() && pieces != []
      modifies this
      ensures n <= |pieces| && old(answers) <= answers
      ensures error == 0 ==> n == |pieces| && Resting() && Quiet(old(answers))
      ensures error != 0 ==> n < |pieces|
      ensures Quiet(old(answers)) ==>
        && Arrived(Feed(g, old(View()), Flatten(pieces))) && log == SeenBy(g, old(View()), pieces)
        && (error != 0 && Stops(Feed(g, old(View()), Flatten(pieces))) ==>
              |Flatten(pieces[..n])| + errorPos == StopAt(g, old(View()), Flatten(pieces)))
    {
      hide Ahead, Feed, StopAt, Settle, Fits, Flatten, Rank, Ended, Interrupted, EndsInName, ErrorOf, Seen, SeenBy, Arrived;
      ghost var start, past := View(), answers;
      n := 0;
      assert Flatten(pieces[..0]) == [] by { FlattenNothing(pieces); }
      FeedNothing(g, start);
      while n < |pieces|
        invariant n <= |pieces| && error == 0 && Resting() && past <= answers && Quiet(past)
        invariant Settle(View()) == Feed(g, start, Flatten(pieces[..n]))
        invariant n > 0 ==> View() == Settle(View())
      {
        ghost var mid, s, inName := answers, View(), spanOpen && spanKind.FieldSpan?;
        RestingIsAlive();
        FeedNext(g, start, pieces, n, s);
        FeedIsSettled(g, start, Flatten(pieces[..n + 1]));
        SeenInPiece(g, start, pieces, n, s);
        StopsInPiece(g, start, pieces, n, s);
        AheadWhole(g, s, pieces[n]);
        var r := Execute(pieces[n]);
        if r != 0 {
          if Quiet(past) {
            assert Quiet(mid);
            EndedArrives(Aim(Ahead(g, s, pieces[n], 0), inName), pieces[n], mid);
          }
          return;
        }
        n := n + 1;
      }
      assert pieces[..n] == pieces;
      RestingIsAlive();
      LastArrives(pieces, start);
    }

    lemma RestingIsAlive()
      requires Resting()
      ensures !st.NameFailed? && !st.Upgraded? && ErrorOf(View()) == 0
    {
      hide Aligned, Spanning, KindIn, EndsInName;
    }

    lemma LastArrives(pieces: seq<seq<byte>>, start: Core)
      requires error == 0 == ErrorOf(View()) && View() == Feed(g, start, Flatten(pieces))
      ensures Arrived(Feed(g, start, Flatten(pieces))) && log == SeenBy(g, start, pieces)
    {
      hide Feed, StopAt, Within, Flatten, NameLength;
    }

    /** All answers since `past` are 0 or HPE_PAUSED. */
    ghost predicate OnlyPauses(past: seq<int>)
      reads this`answers
    {
      forall i :: |past| <= i < |answers| ==> answers[i] == 0 || answers[i] == 21
    }

    /** A caller that resumes after every pause and goes on from `error_pos`, at the end of the data with
        no bytes at all as long as the parser can go on without one. Pauses, wherever the callbacks put
        them, change nothing: state, error and events are those of a run without. */
    method Drive(data: seq<byte>) returns (ghost k: nat)
      requires error == 0 && Resting()
      modifies this
      ensures old(answers) <= answers && k <= |data|
      ensures
        var goal := Ahead(g, old(View()), data, 0);
        && (error == 0 ==> Resting() && View() == goal.core && OnlyPauses(old(answers)))
        && (error != 0 && OnlyPauses(old(answers)) ==>
              && Arrived(goal.core) && log == Seen(goal) && ErrorOf(goal.core) == error
              && (Stops(goal.core) ==> k + errorPos == goal.at))
    {
      hide Ahead, Settle, Fits, Rank, Ended, Interrupted, EndsInName, ErrorOf, Seen, Arrived, NeedsNoByte;
      ghost var goal, past := Ahead(g, View(), data, 0), answers;
      var p := 0;
      k := 0;
      while p < |data| || NeedsNoByte(st)
        invariant k <= p <= |data| && error == 0 && Resting() && past <= answers && OnlyPauses(past)
        invariant Ahead(g, View(), data, p) == goal && (0 < p < |data| ==> !spanOpen)
        decreases |data| - p, Rank(st)
      {
        ghost var aim := Aim(Ahead(g, View(), data[p..], 0), spanOpen && spanKind.FieldSpan?);
        ghost var s, mid := View(), answers;
        if NeedsNoByte(st) {
          NoByteNoSpan();
        }
        AheadRebase(g, s, data, p, p);
        k := p;
        var r := Execute(data[p..]);
        if r == 0 {
          return;
        }
        if r != HPE_PAUSED {
          DriveEnds(data, p, goal, aim, mid);
          return;
        }
        PauseResumes(data, p, goal, aim, mid);
        p := p + errorPos;
        Resume();
      }
      AheadEnd(g, View(), data);
      SettledAlready(View());
    }

    lemma NoByteNoSpan()
      requires Resting() && NeedsNoByte(st)
      ensures !spanOpen
    {
      hide EndsInName, Aligned, KindIn;
    }

    /** A whole stream in any pieces under such a caller, up to the first error: pauses or none, the state,
        the error and what the callbacks have seen are those of `ExecuteAll` without objections. */
    method DriveAll(pieces: seq<seq<byte>>) returns (n: nat, ghost k: nat)
      requires error == 0 && Resting() && pieces != []
      modifies this
      ensures n <= |pieces| && old(answers) <= answers
      ensures error == 0 ==> n == |pieces| && Resting() && OnlyPauses(old(answers))
      ensures error != 0 ==> n < |pieces|
      ensures OnlyPauses(old(answers)) ==>
        Arrived(Feed(g, old(View()), Flatten(pieces))) && log == SeenBy(g, old(View()), pieces)
      ensures error != 0 && OnlyPauses(old(answers)) && Stops(Feed(g, old(View()), Flatten(pieces))) ==>
        |Flatten(pieces[..n])| + k + errorPos == StopAt(g, old(View()), Flatten(pieces))
    {
      hide Ahead, Feed, StopAt, Settle, Fits, Flatten, EndsInName, ErrorOf, Seen, SeenBy, Arrived;
      k := 0;
      ghost var start, past := View(), answers;
      n := 0;
      assert Flatten(pieces[..0]) == [] by { FlattenNothing(pieces); }
      FeedNothing(g, start);
      while n < |pieces|
        invariant n <= |pieces| && error == 0 && Resting() && past <= answers && OnlyPauses(past)
        invariant Settle(View()) == Feed(g, start, Flatten(pieces[..n]))
        invariant n > 0 ==> View() == Settle(View())
      {
        ghost var mid, s := answers, View();
        RestingIsAlive();
        FeedNext(g, start, pieces, n, s);
        FeedIsSettled(g, start, Flatten(pieces[..n + 1]));
        SeenInPiece(g, start, pieces, n, s);
        StopsInPiece(g, start, pieces, n, s);
        AheadWhole(g, s, pieces[n]);
        k := Drive(pieces[n]);
        if error != 0 {
          return;
        }
        n := n + 1;
      }
      assert pieces[..n] == pieces;
      RestingIsAlive();
      LastArrives(pieces, start);
    }

    /** Not stopped by a pause, and by no other answer. */
    lemma DriveEnds(data: seq<byte>, p: nat, goal: Goal, aim: Aim, past: seq<int>)
      requires p <= |data| && Stopped(data[p..], aim, past) && error != HPE_PAUSED
      requires goal == Goal(aim.end.core, p + aim.end.at) && (p > 0 ==> !aim.inName)
      ensures OnlyPauses(past) ==>
        Arrived(goal.core) && log == Seen(goal) && ErrorOf(goal.core) == error && (Stops(goal.core) ==> p + errorPos == goal.at)
    {
      hide Ahead, Arrived, Seen, Stops, NameLength, Resting, CallbackError;
      if OnlyPauses(past) {
        if Quiet(past) {
          EndedArrives(aim, data[p..], past);
          SeenFrom(goal, aim.end, p);
        } else {
          assert false;
        }
      }
    }

    lemma PauseResumes(data: seq<byte>, p: nat, goal: Goal, aim: Aim, past: seq<int>)
      requires p <= |data| && Stopped(data[p..], aim, past) && error == HPE_PAUSED
      requires goal == Goal(aim.end.core, p + aim.end.at)
      ensures p + errorPos <= |data| && Ahead(g, View(), data, p + errorPos) == goal && Resting()
      ensures p + errorPos < |data| ==> !spanOpen
      ensures past <= answers && OnlyPauses(past)
    {
      hide Ahead, Seen, NameLength, CallbackError, EndsInName, Fits;
      assert !Quiet(past) by {
        if Quiet(past) {
          EndedIsNoPause(aim);
        }
      }
      AheadBack(g, View(), data, p, errorPos);
    }

    lemma EndedIsNoPause(aim: Aim)
      requires Ended(aim)
      ensures error != HPE_PAUSED
    {
    }
  }
}
