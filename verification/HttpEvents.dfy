/** What the callbacks of a stream cut into pieces have seen when a run ends. A byte refused inside a
    header name leaves the name's span open, and the part of the name that lies in the last piece is
    never reported; everything else the callbacks see depends on the bytes alone. */
module HttpEvents {
  import opened Bytes
  import opened HttpSpec
  import opened HttpBodies
  import opened HttpSteps

  /* ---- names at the end of a log ------------------------------------------------------------------ */

  predicate EndsInName(log: seq<Event>) {
    log != [] && log[|log| - 1].SpanByte? && log[|log| - 1].kind.FieldSpan?
  }

  /** How many name bytes a log ends with. */
  function NameLength(log: seq<Event>): (n: nat)
    ensures n <= |log| && (n > 0 <==> EndsInName(log))
  {
    if EndsInName(log) then 1 + NameLength(log[..|log| - 1]) else 0
  }

  lemma {:induction false} NameGrows(log: seq<Event>, name: seq<byte>)
    ensures NameLength(log + Spans(FieldSpan, name)) == NameLength(log) + |name|
    decreases |name|
  {
    var all := log + Spans(FieldSpan, name);
    if name == [] {
      assert all == log;
    } else {
      var n := |name| - 1;
      NameGrows(log, name[..n]);
      assert all[..|all| - 1] == log + Spans(FieldSpan, name[..n]);
    }
  }

  lemma SpanEnds(log: seq<Event>, kind: SpanKind, d: seq<byte>)
    requires kind.FieldSpan? || !EndsInName(log)
    ensures EndsInName(log + Spans(kind, d)) ==> kind.FieldSpan?
  {
    if d == [] {
      assert log + Spans(kind, d) == log;
    }
  }

  /* ---- where reading stops --------------------------------------------------------------------------- */

  /** The position of the byte refused in a header name, or of the first byte after an upgrade; the length
      of the input when there is neither. */
  function StopAt(g: Grammar, s: Core, bytes: seq<byte>): (n: nat)
    ensures n <= |bytes|
    decreases |bytes|
  {
    if bytes == [] || Settle(s).st.Upgraded? then 0
    else
      var t := Step(g, Settle(s), bytes[0]);
      if t.st.NameFailed? then 0 else 1 + StopAt(g, t, bytes[1..])
  }

  lemma RefusedStays(g: Grammar, s: Core, rest: seq<byte>)
    requires s.st.NameFailed?
    ensures Feed(g, s, rest) == s
  {
    ErrorStays(g, s, rest);
  }

  lemma StopAtNothing(g: Grammar, s: Core)
    ensures StopAt(g, s, []) == 0
  {
  }

  lemma StopAtUpgrade(g: Grammar, s: Core, bytes: seq<byte>)
    requires Settle(s).st.Upgraded?
    ensures StopAt(g, s, bytes) == 0
  {
  }

  lemma StopAtFirst(g: Grammar, s: Core, bytes: seq<byte>)
    requires bytes != [] && !Settle(s).st.Upgraded?
    ensures var t := Step(g, Settle(s), bytes[0]);
      StopAt(g, s, bytes) == if t.st.NameFailed? then 0 else 1 + StopAt(g, t, bytes[1..])
  {
  }

  /** A run that is neither refused nor upgraded reads to the end. */
  lemma {:induction false} ReadsOn(g: Grammar, s: Core, a: seq<byte>)
    requires !Feed(g, s, a).st.NameFailed? && !Feed(g, s, a).st.Upgraded?
    ensures StopAt(g, s, a) == |a|
    decreases |a|
  {
    hide Step, Settle, StopAt;
    if a == [] {
      StopAtNothing(g, s);
    } else {
      UpgradeStays(g, s, a);
      var t := Step(g, Settle(s), a[0]);
      if t.st.NameFailed? {
        RefusedStays(g, t, a[1..]);
      }
      ReadsOn(g, t, a[1..]);
      StopAtFirst(g, s, a);
    }
  }

  lemma UpgradeStays(g: Grammar, s: Core, rest: seq<byte>)
    ensures Settle(s).st.Upgraded? ==> Feed(g, s, rest) == Settle(s)
  {
    if Settle(s).st.Upgraded? {
      FeedSettled(g, s, rest);
      UpgradeFeeds(g, Settle(s), rest);
    }
  }

  lemma {:induction false} StopAtConcat(g: Grammar, s: Core, a: seq<byte>, b: seq<byte>)
    requires StopAt(g, s, a) == |a|
    ensures StopAt(g, s, a + b) == |a| + StopAt(g, Feed(g, s, a), b)
    decreases |a|
  {
    hide Step, Settle, StopAt;
    if a == [] {
      assert a + b == b;
      FeedNothing(g, s);
      StopAtSettled(g, s, b);
    } else {
      if Settle(s).st.Upgraded? {
        StopAtUpgrade(g, s, a);
      }
      var t := Step(g, Settle(s), a[0]);
      StopAtFirst(g, s, a);
      StopAtConcat(g, t, a[1..], b);
      assert (a + b)[1..] == a[1..] + b;
      StopAtFirst(g, s, a + b);
    }
  }

  /** A run whose last byte brings the upgrade has read it. */
  lemma ReadsLast(g: Grammar, s: Core, a: seq<byte>, b: byte)
    requires !Feed(g, s, a).st.NameFailed? && !Feed(g, s, a).st.Upgraded? && !Feed(g, s, a + [b]).st.NameFailed?
    ensures StopAt(g, s, a + [b]) == |a| + 1
  {
    hide Step, Settle, StopAt;
    var t := Feed(g, s, a);
    ReadsOn(g, s, a);
    StopAtConcat(g, s, a, [b]);
    FeedConcat(g, s, a, [b]);
    FeedIsSettled(g, s, a);
    StopAtFirst(g, t, [b]);
    var u := Step(g, t, b);
    FeedByte(g, t, b);
    if u.st.NameFailed? {
      RefusedStays(g, u, []);
      FeedNothing(g, u);
    }
    assert [b][1..] == [];
    StopAtNothing(g, u);
  }

  lemma {:induction false} StopAtPrefix(g: Grammar, s: Core, a: seq<byte>, b: seq<byte>)
    requires StopAt(g, s, a) < |a|
    ensures StopAt(g, s, a + b) == StopAt(g, s, a)
    decreases |a|
  {
    hide Step, Settle, StopAt;
    if Settle(s).st.Upgraded? {
      StopAtUpgrade(g, s, a);
      StopAtUpgrade(g, s, a + b);
    } else {
      StopAtFirst(g, s, a);
      StopAtFirst(g, s, a + b);
      assert (a + b)[1..] == a[1..] + b;
      var t := Step(g, Settle(s), a[0]);
      if !t.st.NameFailed? {
        StopAtPrefix(g, t, a[1..], b);
      }
    }
  }

  lemma StopAtSettled(g: Grammar, s: Core, bytes: seq<byte>)
    ensures StopAt(g, Settle(s), bytes) == StopAt(g, s, bytes)
  {
    hide Step, Settle, StopAt;
    SettleTwice(s);
    if bytes == [] {
      StopAtNothing(g, s);
      StopAtNothing(g, Settle(s));
    } else if Settle(s).st.Upgraded? {
      StopAtUpgrade(g, s, bytes);
      StopAtUpgrade(g, Settle(s), bytes);
    } else {
      StopAtFirst(g, s, bytes);
      StopAtFirst(g, Settle(s), bytes);
    }
  }

  /** A refusal happens at a byte of the input. */
  lemma {:induction false} RefusedInside(g: Grammar, s: Core, bytes: seq<byte>)
    requires Feed(g, s, bytes).st.NameFailed? && !Settle(s).st.NameFailed?
    ensures StopAt(g, s, bytes) < |bytes|
    decreases |bytes|
  {
    hide Step, Settle, StopAt;
    if bytes == [] {
      FeedNothing(g, s);
    } else {
      var t := Step(g, Settle(s), bytes[0]);
      UpgradeStays(g, s, bytes);
      StopAtFirst(g, s, bytes);
      if !t.st.NameFailed? {
        SettleKeepsNames(t);
        RefusedInside(g, t, bytes[1..]);
      }
    }
  }

  lemma {:induction false} SettleKeepsNames(s: Core)
    requires !s.st.NameFailed?
    ensures !Settle(s).st.NameFailed?
    decreases Pending(s.st)
  {
    hide Move;
    if NeedsNoByte(s.st) {
      MovesEnd(s);
      MoveRefusesNothing(s);
      SettleKeepsNames(Move(s));
    }
  }

  lemma MoveRefusesNothing(s: Core)
    requires NeedsNoByte(s.st)
    ensures !Move(s).st.NameFailed?
  {
    hide AfterHeadersComplete, ShouldKeepAlive, UpgradeWanted;
    match s.st
    case OnReset =>
    case OnBegin =>
    case FieldDone =>
    case FieldKnown =>
    case ValueDone =>
    case HeadersDone =>
    case AfterHeaders =>
    case ChunkClear =>
    case OnChunkHeader =>
    case ChunkKind =>
    case ChunkDone =>
    case TrailersDone =>
    case NoBodyComplete =>
    case UpgradeComplete =>
    case BodyComplete =>
    case CheckUpgrade =>
    case GoUpgrade =>
    case AfterMessage =>
    case GoFail(_) =>
    case _ =>
  }

  /* ---- the end a run is heading for ----------------------------------------------------------------- */

  /** The state a piece of data leads to, and the position in it where reading stops. */
  datatype Goal = Goal(core: Core, at: nat)

  /** Where the data from p on leads from state s. */
  function Ahead(g: Grammar, s: Core, data: seq<byte>, p: nat): (r: Goal)
    requires p <= |data|
    ensures p <= r.at <= |data|
  {
    Goal(Feed(g, s, data[p..]), p + StopAt(g, s, data[p..]))
  }

  lemma AheadByte(g: Grammar, s: Core, data: seq<byte>, p: nat)
    requires p < |data| && !NeedsNoByte(s.st) && !s.st.Upgraded?
    ensures var t := Step(g, s, data[p]);
      Ahead(g, s, data, p) == if t.st.NameFailed? then Goal(t, p) else Ahead(g, t, data, p + 1)
  {
    hide Feed, Step, StopAt, Settle;
    var rest := data[p..];
    assert rest[0] == data[p] && rest[1..] == data[p + 1..];
    SettledAlready(s);
    ByteFirst(g, s, rest);
    StopAtFirst(g, s, rest);
    var t := Step(g, s, data[p]);
    if t.st.NameFailed? {
      RefusedStays(g, t, rest[1..]);
    }
  }

  /** Two states that do the same to the next byte lead to the same end. */
  lemma AheadSame(g: Grammar, s: Core, t: Core, data: seq<byte>, p: nat)
    requires p < |data| && Step(g, Settle(s), data[p]) == Step(g, Settle(t), data[p])
    requires !Settle(s).st.Upgraded? && !Settle(t).st.Upgraded?
    ensures Ahead(g, s, data, p) == Ahead(g, t, data, p)
  {
    hide Feed, Step, StopAt, Settle;
    SameByte(g, s, t, data[p..]);
    StopAtFirst(g, s, data[p..]);
    StopAtFirst(g, t, data[p..]);
  }

  lemma AheadMove(g: Grammar, s: Core, data: seq<byte>, p: nat)
    requires p <= |data| && NeedsNoByte(s.st)
    ensures Ahead(g, Move(s), data, p) == Ahead(g, s, data, p)
  {
    hide Feed, Step, StopAt, Settle, Move;
    MoveFirst(g, s, data[p..]);
    SettleMove(s);
    StopAtSettled(g, s, data[p..]);
    StopAtSettled(g, Move(s), data[p..]);
  }

  /** A whole stretch of the data at once. */
  lemma AheadStretch(g: Grammar, s: Core, data: seq<byte>, p: nat, q: nat)
    requires p <= q <= |data| && StopAt(g, s, data[p..q]) == q - p
    ensures Ahead(g, s, data, p) == Ahead(g, Feed(g, s, data[p..q]), data, q)
  {
    hide Feed, StopAt;
    assert data[p..] == data[p..q] + data[q..];
    FeedConcat(g, s, data[p..q], data[q..]);
    StopAtConcat(g, s, data[p..q], data[q..]);
  }

  lemma AheadLogGrows(g: Grammar, s: Core, data: seq<byte>, p: nat)
    requires p <= |data|
    ensures s.log <= Ahead(g, s, data, p).core.log
  {
    LogGrows(g, s, data[p..]);
  }

  /** States that read nothing more. */
  lemma AheadOver(g: Grammar, s: Core, data: seq<byte>, p: nat)
    requires p <= |data| && (s.st.Failed? || s.st.GoFail? || s.st.Upgraded? || s.st.GoUpgrade?)
    ensures Ahead(g, s, data, p) ==
            Goal(s.(st := if s.st.GoFail? then Failed(s.st.code) else if s.st.GoUpgrade? then Upgraded else s.st),
                 if s.st.Upgraded? || s.st.GoUpgrade? then p else |data|)
  {
    hide Feed, StopAt;
    if s.st.GoFail? {
      FailureFeeds(g, s, s.st.code, data[p..]);
      ReadsOn(g, s, data[p..]);
    } else if s.st.Failed? {
      FailureFeeds(g, s, s.st.code, data[p..]);
      ReadsOn(g, s, data[p..]);
    } else {
      UpgradeFeeds(g, s, data[p..]);
      UpgradeFeeds(g, s, []);
      FeedNothing(g, s);
      StopAtUpgrade(g, s, data[p..]);
    }
  }

  /** A run of matching bytes that does not end the keyword only advances the index. */
  lemma AheadMatch(g: Grammar, s: Core, data: seq<byte>, p: nat, q: nat)
    requires p <= q <= |data| && Matching(s.st) && Matches(s.st, s.index, data[p..q])
    ensures var kind := if s.st.FieldWord? then FieldSpan else ValueSpan;
      Ahead(g, s, data, p) == Ahead(g, s.(index := s.index + (q - p), log := s.log + Spans(kind, data[p..q])), data, q)
  {
    hide Feed, StopAt, Settle, Step, Spans, Matches, Letters;
    var kind := if s.st.FieldWord? then FieldSpan else ValueSpan;
    var t := s.(index := s.index + (q - p), log := s.log + Spans(kind, data[p..q]));
    MatchRun(g, s, data[p..q], []);
    assert data[p..q] + [] == data[p..q];
    FeedNothing(g, t);
    SettledAlready(t);
    ReadsOn(g, s, data[p..q]);
    AheadStretch(g, s, data, p, q);
  }

  /** A finished header value: its completion is noted before the next line is looked at. */
  lemma AheadHeader(g: Grammar, s: Core, t: Core, data: seq<byte>, p: nat)
    requires p < |data| && !NeedsNoByte(s.st) && !s.st.Upgraded?
    requires Step(g, s, data[p]) == InFieldStart(Note(t, ValueComplete), data[p])
    ensures Ahead(g, t.(st := ValueDone), data, p) == Ahead(g, s, data, p)
  {
    hide Ahead, InFieldStart, Settle;
    var u := Note(t, ValueComplete).(st := FieldStart);
    AheadMove(g, t.(st := ValueDone), data, p);
    FieldStartForgets(Note(t, ValueComplete), FieldStart, data[p]);
    SettledAlready(s);
    SettledAlready(u);
    AheadSame(g, s, u, data, p);
  }

  /** The first byte of a message after the empty lines: its callbacks come before it is looked at. */
  lemma AheadStart(g: Grammar, s: Core, data: seq<byte>, p: nat)
    requires p < |data| && s.st.Start? && data[p] != CR && data[p] != LF
    ensures Ahead(g, s.(st := if s.seen then OnReset else OnBegin), data, p) == Ahead(g, s, data, p)
  {
    hide Ahead, InLine, Settle;
    var t := s.(st := if s.seen then OnReset else OnBegin);
    BeginSettles(t);
    SettledAlready(s);
    assert Step(g, s, data[p]) == InLine(g, Settle(t), data[p]) == Step(g, Settle(t), data[p]);
    AheadSame(g, s, t, data, p);
  }

  lemma AheadSettled(g: Grammar, s: Core, data: seq<byte>, p: nat)
    requires p <= |data|
    ensures Ahead(g, Settle(s), data, p) == Ahead(g, s, data, p)
  {
    hide Feed, StopAt, Settle;
    FeedSettled(g, s, data[p..]);
    StopAtSettled(g, s, data[p..]);
  }

  lemma AheadEnd(g: Grammar, s: Core, data: seq<byte>)
    ensures Ahead(g, s, data, |data|) == Goal(Settle(s), |data|)
  {
    assert data[|data|..] == [];
    FeedNothing(g, s);
  }

  lemma AheadBack(g: Grammar, s: Core, data: seq<byte>, k: nat, p: nat)
    requires k + p <= |data|
    ensures var r := Ahead(g, s, data[k..], p); Ahead(g, s, data, k + p) == Goal(r.core, k + r.at)
  {
    hide Ahead;
    AheadRebase(g, s, data, k, k + p);
  }

  lemma AheadIsSettled(g: Grammar, s: Core, data: seq<byte>, p: nat)
    requires p <= |data|
    ensures Settle(Ahead(g, s, data, p).core) == Ahead(g, s, data, p).core
  {
    hide Feed, Settle, StopAt;
    FeedIsSettled(g, s, data[p..]);
  }

  lemma AheadWhole(g: Grammar, s: Core, data: seq<byte>)
    ensures Ahead(g, s, data, 0).core == Feed(g, s, data)
  {
    assert data[0..] == data;
  }

  /** Data read from position k on is read as data of its own. */
  lemma AheadRebase(g: Grammar, s: Core, data: seq<byte>, k: nat, p: nat)
    requires k <= p <= |data|
    ensures var r := Ahead(g, s, data[k..], p - k); Ahead(g, s, data, p) == Goal(r.core, k + r.at)
  {
    hide Feed, StopAt;
    assert data[k..][p - k..] == data[p..];
  }

  /* ---- what was seen ---------------------------------------------------------------------------------- */

  function Min(a: nat, b: nat): nat {
    if a < b then a else b
  }

  /** What the callbacks of a run to this end have seen, if none objected: all events, except for the
      part of a refused name that lies in the last piece. */
  function Seen(goal: Goal): seq<Event> {
    var log := goal.core.log;
    if goal.core.st.NameFailed? then log[..|log| - Min(NameLength(log), goal.at)] else log
  }

  /** The offset of position f of the stream in its piece. */
  function Within(pieces: seq<seq<byte>>, f: nat): nat {
    if pieces == [] || f < |pieces[0]| then f else Within(pieces[1..], f - |pieces[0]|)
  }

  lemma {:induction false} WithinPiece(pieces: seq<seq<byte>>, n: nat, at: nat)
    requires n < |pieces| && at < |pieces[n]|
    ensures Within(pieces, |Flatten(pieces[..n])| + at) == at
    decreases n
  {
    if n == 0 {
      assert Flatten(pieces[..0]) == [];
    } else {
      assert pieces[..n][0] == pieces[0] && pieces[..n][1..] == pieces[1..][..n - 1];
      WithinPiece(pieces[1..], n - 1, at);
    }
  }

  /** What the callbacks see of a stream that comes in these pieces. */
  function SeenBy(g: Grammar, s: Core, pieces: seq<seq<byte>>): seq<Event> {
    var all := Flatten(pieces);
    Seen(Goal(Feed(g, s, all), Within(pieces, StopAt(g, s, all))))
  }

  /** A run that ends in piece n, which it entered in state s, ends as the whole stream does. */
  lemma SeenInPiece(g: Grammar, start: Core, pieces: seq<seq<byte>>, n: nat, s: Core)
    requires n < |pieces| && Settle(s) == Feed(g, start, Flatten(pieces[..n])) && !s.st.NameFailed?
    ensures var end := Ahead(g, s, pieces[n], 0);
      ErrorOf(end.core) != 0 ==> end.core == Feed(g, start, Flatten(pieces)) && Seen(end) == SeenBy(g, start, pieces)
  {
    hide Feed, Settle, Flatten, StopAt, Within, NameLength, Step, Min;
    var d, before, rest := pieces[n], Flatten(pieces[..n]), Flatten(pieces[n + 1..]);
    assert d[0..] == d;
    FeedNext(g, start, pieces, n, s);
    var end := Ahead(g, s, d, 0);
    if ErrorOf(end.core) != 0 {
      ErrorIsFinal(g, start, pieces, n + 1);
      if end.core.st.NameFailed? {
        SettleKeepsNames(s);
        RefusedInside(g, s, d);
        CutAround(pieces, n);
        UpgradeStays(g, s, d);
        ReadsOn(g, start, before);
        StopAtConcat(g, start, before, d + rest);
        StopAtPrefix(g, s, d, rest);
        StopAtSettled(g, s, d + rest);
        WithinPiece(pieces, n, end.at);
      }
    }
  }

  /** Where a run stops in piece n is where the whole stream stops. */
  lemma StopsInPiece(g: Grammar, start: Core, pieces: seq<seq<byte>>, n: nat, s: Core)
    requires n < |pieces| && Settle(s) == Feed(g, start, Flatten(pieces[..n])) && !s.st.NameFailed?
    requires n == 0 || !Settle(s).st.Upgraded?
    ensures var end := Ahead(g, s, pieces[n], 0);
      end.core.st.NameFailed? || end.core.st.Upgraded? ==> |Flatten(pieces[..n])| + end.at == StopAt(g, start, Flatten(pieces))
  {
    hide Feed, Settle, Flatten, StopAt, Step;
    var d, before, rest := pieces[n], Flatten(pieces[..n]), Flatten(pieces[n + 1..]);
    assert d[0..] == d;
    var end := Ahead(g, s, d, 0);
    SettleKeepsNames(s);
    if end.core.st.NameFailed? {
      RefusedInside(g, s, d);
    }
    if n == 0 {
      assert before == [] by { FlattenNothing(pieces); }
      StopAtNothing(g, start);
    } else {
      ReadsOn(g, start, before);
    }
    CutAround(pieces, n);
    StopAtConcat(g, start, before, d + rest);
    StopAtSettled(g, s, d + rest);
    if end.at < |d| {
      StopAtPrefix(g, s, d, rest);
    } else if end.core.st.Upgraded? {
      StopAtConcat(g, s, d, rest);
      FeedIsSettled(g, s, d);
      StopAtUpgrade(g, end.core, rest);
    }
  }

  lemma FlattenNothing(pieces: seq<seq<byte>>)
    ensures Flatten(pieces[..0]) == []
  {
  }

  lemma CutAround(pieces: seq<seq<byte>>, n: nat)
    requires n < |pieces|
    ensures Flatten(pieces) == Flatten(pieces[..n]) + (pieces[n] + Flatten(pieces[n + 1..]))
  {
    assert pieces == pieces[..n] + pieces[n..];
    FlattenConcat(pieces[..n], pieces[n..]);
    assert pieces[n..][1..] == pieces[n + 1..];
  }

  /** Where the data began does not matter to a run that has read no part of the name before. */
  lemma SeenFrom(goal: Goal, end: Goal, k: nat)
    requires goal.core == end.core && goal.at == k + end.at
    requires k > 0 && end.core.st.NameFailed? ==> NameLength(end.core.log) <= end.at
    ensures Seen(goal) == Seen(end)
  {
    hide NameLength;
  }

  /** Two cuts of one stream show the callbacks the same events iff the stream is not refused inside a
      header name, or both cuts leave the same part of that name in the piece with the refused byte. */
  lemma CutsAgree(g: Grammar, s: Core, a: seq<seq<byte>>, b: seq<seq<byte>>)
    requires Flatten(a) == Flatten(b)
    ensures var r, f := Feed(g, s, Flatten(a)), StopAt(g, s, Flatten(a));
      SeenBy(g, s, a) == SeenBy(g, s, b) <==>
      !r.st.NameFailed? || Min(NameLength(r.log), Within(a, f)) == Min(NameLength(r.log), Within(b, f))
  {
    hide Feed, StopAt, Within, NameLength;
    var r, f := Feed(g, s, Flatten(a)), StopAt(g, s, Flatten(a));
    if r.st.NameFailed? {
      var m, n := Min(NameLength(r.log), Within(a, f)), Min(NameLength(r.log), Within(b, f));
      assert |SeenBy(g, s, a)| == |r.log| - m && |SeenBy(g, s, b)| == |r.log| - n;
    }
  }

  /** `x@` where a header name begins: in one piece the callbacks never hear of the `x`, in two they do. */
  lemma RefusedNameExample(g: Grammar, s: Core)
    requires s.st.FieldStart? && s.index == 0 && !EndsInName(s.log)
    ensures SeenBy(g, s, [[120, 64]]) == s.log
    ensures SeenBy(g, s, [[120], [64]]) == s.log + [SpanByte(FieldSpan, 120)]
  {
    hide Feed, StopAt, Step, Settle, Within, Flatten, Seen, EndsInName;
    var r := Into(s.(hs := General), FieldSpan, 120, NameFailed);
    RefusedNameEnds(g, s, r);
    CutsOfTwo(120, 64);
    OneByteSeen(s.log, r);
  }

  lemma OneByteSeen(log: seq<Event>, r: Core)
    requires r.st.NameFailed? && r.log == log + [SpanByte(FieldSpan, 120)] && !EndsInName(log)
    ensures Seen(Goal(r, 1)) == log && Seen(Goal(r, 0)) == r.log
  {
    assert r.log[..|r.log| - 1] == log;
    assert NameLength(r.log) == 1 + NameLength(log) == 1;
  }

  lemma RefusedNameEnds(g: Grammar, s: Core, r: Core)
    requires s.st.FieldStart? && s.index == 0 && r == Into(s.(hs := General), FieldSpan, 120, NameFailed)
    ensures Feed(g, s, [120, 64]) == r && StopAt(g, s, [120, 64]) == 1
  {
    hide Feed, StopAt, Step, Settle;
    var t := Into(s.(hs := General), FieldSpan, 120, FieldGeneral);
    RefusedNameSteps(g, s, t);
    SettledAlready(s);
    SettledAlready(t);
    SettledAlready(r);
    FeedTwo(g, s, 120, 64);
    StopAtFirst(g, s, [120, 64]);
    assert [120, 64][1..] == [64];
    StopAtFirst(g, t, [64]);
  }

  lemma RefusedNameSteps(g: Grammar, s: Core, t: Core)
    requires s.st.FieldStart? && t == Into(s.(hs := General), FieldSpan, 120, FieldGeneral)
    ensures Step(g, s, 120) == t && Step(g, t, 64) == t.(st := NameFailed)
  {
  }

  lemma CutsOfTwo(x: byte, y: byte)
    ensures Flatten([[x, y]]) == [x, y] == Flatten([[x], [y]])
    ensures Within([[x, y]], 1) == 1 && Within([[x], [y]], 1) == 0
  {
    assert [[x, y]][1..] == [] && [[x], [y]][1..] == [[y]] && [[y]][1..] == [];
    assert Flatten([[y]]) == [y] + Flatten([]);
    assert Flatten([[x, y]]) == [x, y] + Flatten([]);
    assert Flatten([[x], [y]]) == [x] + Flatten([[y]]);
  }
}
