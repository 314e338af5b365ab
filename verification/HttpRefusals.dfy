/** What the parser refuses: bytes that may not stand in names and values, line ends other than CR LF,
    folded lines, and chunks that are not framed as announced. */
module HttpRefusals {
  import opened Bytes
  import opened HttpSpec
  import opened HttpBodies
  import opened HttpSteps
  import opened HttpMessages
  import opened HttpHeaders
  import opened HttpFields

  /* ---- bytes that may not stand where they are ------------------------------------------------------------------------------- */

  const TOKEN_MARKS := "!#$%&'*+-.^_`|~"

  /** The characters of names and of values (sections 5.6.2 of RFC 9110 and 5.5). */
  lemma Characters(b: byte)
    ensures IsToken(b) <==>
      48 <= b <= 57 || 65 <= b <= 90 || 97 <= b <= 122 || exists i :: 0 <= i < |TOKEN_MARKS| && TOKEN_MARKS[i] as int == b
    ensures IsFieldValue(b) <==> b == 9 || 32 <= b <= 126 || 128 <= b
    ensures IsBlank(b) <==> b == 9 || b == 32
  {
    TokenMarks();
    if IsToken(b) && !(48 <= b <= 57 || 65 <= b <= 90 || 97 <= b <= 122) {
      assert exists i :: 0 <= i < |TOKEN_MARKS| && TOKEN_MARKS[i] as int == b by {
        var i := if b == 33 then 0 else if b <= 39 then b - 34 else if b <= 43 then b - 36 else if b <= 46 then b - 37
                 else if b <= 96 then b - 84 else if b == 124 then 13 else 14;
        assert TOKEN_MARKS[i] as int == b;
      }
    }
  }

  lemma TokenMarks()
    ensures |TOKEN_MARKS| == 15
    ensures TOKEN_MARKS[0] as int == 33 && forall i :: 1 <= i <= 5 ==> TOKEN_MARKS[i] as int == i + 34
    ensures TOKEN_MARKS[6] as int == 42 && TOKEN_MARKS[7] as int == 43 && TOKEN_MARKS[8] as int == 45 && TOKEN_MARKS[9] as int == 46
    ensures forall i :: 10 <= i <= 12 ==> TOKEN_MARKS[i] as int == i + 84
    ensures TOKEN_MARKS[13] as int == 124 && TOKEN_MARKS[14] as int == 126
  {
  }

  /** A byte that is neither a name character nor the colon, after at least one of a name. A space after a
      known name is refused once that name is reported. */
  lemma BadNameIsRefused(g: Grammar, s: Core, name: seq<byte>, b: byte, rest: seq<byte>)
    requires AtHeader(s.st) && s.index == 0 && IsName(name) && !IsToken(b) && b != COLON
    ensures Feed(g, s, name + ([b] + rest)).st ==
            if b == SP && IsKnown(Lower(name)) then Failed(10) else NameFailed
  {
    hide Feed, Step, Settle, Naming, IsToken, Names, InField, IsKnown, Lower;
    var c, more := name[0], name[1..];
    FirstStep(g, s, c);
    FirstName(s, c);
    var t := InField(s, c);
    ByteFirst(g, s, name);
    assert name == [c] + more;
    NameReads(g, t, [c], more);
    var u := Feed(g, t, more);
    FeedConcat(g, s, name, [b] + rest);
    NamingNeedsByte(u, name);
    ByteFirst(g, u, [b] + rest);
    assert ([b] + rest)[0] == b && ([b] + rest)[1..] == rest;
    NameStops(g, u, name, b);
    StopStays(g, Step(g, u, b), rest);
  }

  lemma StopStays(g: Grammar, s: Core, rest: seq<byte>)
    requires s.st.Failed? || s.st.NameFailed?
    ensures Feed(g, s, rest) == s
  {
    ErrorStays(g, s, rest);
  }

  lemma NameStops(g: Grammar, s: Core, name: seq<byte>, b: byte)
    requires Naming(s, name) && !IsToken(b) && b != COLON
    ensures Step(g, s, b).st == if b == SP && IsKnown(Lower(name)) then Failed(HPE_INVALID_HEADER_TOKEN) else NameFailed
  {
    hide Off, Lower, KindOf, IsKnown, Opening, Letters, IsToken;
    LettersAreTokens(b);
    match s.st
    case FieldWord(w) =>
      LettersAreNoMarks(w, b);
      PartIsNotKnown(w, s.index, name);
    case FieldCo => ConIsNotKnown(name);
    case FieldColon =>
    case FieldGeneral => OffIsNotKnown(name);
  }

  lemma LettersAreTokens(b: byte)
    requires !IsToken(b)
    ensures LowerByte(b) == b && !(97 <= b <= 122) && b != 45
  {
  }

  lemma LettersAreNoMarks(w: Word, b: byte)
    requires LowerByte(b) == b && !(97 <= b <= 122) && b != 45
    ensures forall i :: 0 <= i < |Letters(w)| ==> LowerByte(b) != Letters(w)[i]
  {
    hide LowerByte;
  }

  lemma PartIsNotKnown(w: Word, i: nat, name: seq<byte>)
    requires NameWord(w) && i < |Letters(w)| && Lower(name) == Opening(w) + Letters(w)[..i]
    ensures !IsKnown(Lower(name))
  {
    hide Opening, Letters, Lower;
    var n := |Opening(w)|;
    assert |Lower(name)| == n + i;
    if IsKnown(Lower(name)) {
      assert Lower(name)[..n] == Opening(w);
      OpeningIsUnique(w, Lower(name));
    }
  }

  lemma ConIsNotKnown(name: seq<byte>)
    requires Lower(name) == [99, 111, 110]
    ensures !IsKnown(Lower(name))
  {
    hide Lower;
  }

  lemma OffIsNotKnown(name: seq<byte>)
    requires Off(name)
    ensures !IsKnown(Lower(name))
  {
    hide Lower;
    assert IsKnown(Lower(name)) ==> !(Lower(name) <= Lower(name));
  }

  /** A byte that no value may have, other than the carriage return that ends it. */
  lemma BadValueIsRefused(g: Grammar, s: Core, v: seq<byte>, b: byte, rest: seq<byte>)
    requires s.st.DiscardWs? && IsText(v) && (v != [] ==> !IsBlank(v[0])) && !IsFieldValue(b) && b != CR
    ensures Feed(g, s, v + ([b] + rest)).st.Failed?
  {
    hide Feed, Step, Settle, ValueState, IsFieldValue, HttpHeaders.Reads, HasRead, IsBlank;
    var all := [b] + rest;
    assert all[0] == b && all[1..] == rest;
    if v == [] {
      assert v + all == all;
      NoValueStops(g, s, b);
      ByteFirst(g, s, all);
      FailedStays(g, Step(g, s, b), rest);
    } else {
      var t, more := Step(g, s, v[0]), v[1..];
      FirstOfValue(g, s, v[0]);
      ByteFirst(g, s, v);
      FeedConcat(g, s, v, all);
      if t.st.Failed? {
        FailedStays(g, t, more);
        FailedStays(g, t, all);
      } else {
        ReadsIsValue(s, v[0], t);
        ValueBytes(g, t, more);
        var u := Feed(g, t, more);
        ValueIsRead(t, more, u);
        if u.st.Failed? {
          FailedStays(g, u, all);
        } else {
          ValueStates(u.st);
          ValueStops(g, u, b);
          ByteFirst(g, u, all);
          FailedStays(g, Step(g, u, b), rest);
        }
      }
    }
  }

  lemma NoValueStops(g: Grammar, s: Core, b: byte)
    requires s.st.DiscardWs? && !IsFieldValue(b) && b != CR
    ensures Step(g, s, b).st.Failed? && !NeedsNoByte(s.st)
  {
    hide Letters, MulAdd, AfterOverflow, LowerByte, OrBit5;
    NoFieldValue(b);
    BadByteIsNoLetter(Chunked, b);
  }

  lemma ValueStops(g: Grammar, s: Core, b: byte)
    requires ValueState(s.st) && !IsFieldValue(b) && b != CR
    ensures Step(g, s, b).st.Failed?
  {
    hide Letters, MulAdd, AfterOverflow, ApplyToken, LowerByte, OrBit5, IsFieldValue;
    NoFieldValue(b);
    match s.st
    case Value =>
    case ConnToken =>
    case TeToken =>
    case Conn =>
    case ConnWs =>
    case ConnWord(w) => BadByteIsNoLetter(w, b);
    case TeChunked => BadByteIsNoLetter(Chunked, b);
    case TeOws => BadByteIsNoLetter(Chunked, b);
    case TeLast =>
    case Length =>
    case LengthWs =>
  }

  lemma NoFieldValue(b: byte)
    requires !IsFieldValue(b)
    ensures !IsBlank(b) && !IsDigit(b) && b != COMMA && b != SP && LowerByte(b) !in {99, 107, 117} && OrBit5(b) != 99
    ensures b == 127 || b < 32
  {
  }

  lemma BadByteIsNoLetter(w: Word, b: byte)
    requires b == 127 || b < 32
    ensures forall i :: 0 <= i < |Letters(w)| ==> LowerByte(b) != Letters(w)[i] && (w.Chunked? ==> OrBit5(b) != Letters(w)[i])
  {
    assert LowerByte(b) == b && (OrBit5(b) == b || OrBit5(b) == b + 32);
  }

  /* ---- line ends ------------------------------------------------------------------------------------------------------------------- */

  /** A carriage return ends a value only together with a line feed. */
  lemma ValueEndIsStrict(g: Grammar, s: Core, b: byte)
    requires ValueState(s.st) && b != LF
    ensures Feed(g, s, [CR, b]).st == Failed(3)
  {
    hide Feed, Settle, ValueState, Step;
    ValueStates(s.st);
    ValueCr(g, s);
    FeedTwo(g, s, CR, b);
    SettledAlready(s);
    var t := Step(g, s, CR);
    SettledAlready(t);
    NotLineFeed(g, t, b);
    SettledAlready(Step(g, t, b));
  }

  lemma NotLineFeed(g: Grammar, s: Core, b: byte)
    requires b != LF
    ensures s.st.ValueLf? ==> Step(g, s, b) == Fail(s, HPE_LF_EXPECTED)
    ensures s.st.DiscardWsLf? || s.st.HeadersLf? || s.st.ChunkSizeLf? || s.st.ChunkDataLf? ==> Step(g, s, b) == Fail(s, HPE_STRICT)
  {
  }

  /** The same where a value would begin, and where a header would. */
  lemma EmptyLineIsStrict(g: Grammar, s: Core, b: byte)
    requires (s.st.DiscardWs? || AtHeader(s.st)) && b != LF
    ensures Feed(g, s, [CR, b]).st == Failed(2)
  {
    hide Feed, Settle, Step;
    FeedTwo(g, s, CR, b);
    if s.st.DiscardWs? {
      DiscardsCr(g, s);
    } else {
      HeaderCr(g, s);
    }
    var t := Step(g, s, CR);
    SettledAlready(s);
    SettledAlready(t);
    NotLineFeed(g, t, b);
    SettledAlready(Step(g, t, b));
  }

  /** No line may begin with a blank: values are not folded. */
  lemma FoldingIsRefused(g: Grammar, s: Core, b: byte)
    requires LineRead(s.st) && IsBlank(b)
    ensures Feed(g, s, [b]).st == Failed(10)
  {
    hide Feed, Settle;
    FeedByte(g, s, b);
    SettledAlready(s);
    SettledAlready(Step(g, s, b));
  }

  /** Where a header may begin there is a name, or the carriage return of the empty line, or a refusal. */
  lemma BadBeginIsRefused(g: Grammar, s: Core, b: byte)
    requires AtHeader(s.st) && !IsToken(b) && b != CR
    ensures Feed(g, s, [b]).st == if b == LF || b == COLON then Failed(10)
                                  else if b == SP && s.st.HeadersStart? then Failed(30)
                                  else NameFailed
  {
    hide Feed, Settle;
    FeedByte(g, s, b);
    SettledAlready(s);
    LettersAreTokens(b);
    SettledAlready(Step(g, s, b));
  }

  /* ---- the same for chunks ---------------------------------------------------------------------------------------------------------- */

  /** After the data of a chunk there is CR LF, and nothing else will do. */
  lemma ChunkEndIsStrict(g: Grammar, s: Core, a: byte, b: byte)
    requires s.st.ChunkDataCr?
    ensures Feed(g, s, [a, b]).st.Failed? <==> [a, b] != CRLF
    ensures Feed(g, s, [a, b]).st.Failed? ==> Feed(g, s, [a, b]).st == Failed(if a == LF then 25 else 2)
  {
    hide Feed, Settle, Step;
    assert [a, b] == CRLF <==> a == CR && b == LF;
    FeedTwo(g, s, a, b);
    SettledAlready(s);
    ChunkCrStep(g, s, a);
    var t := Step(g, s, a);
    SettledAlready(t);
    if t.st.Failed? {
      FailedStays(g, t, [b]);
      FeedByte(g, t, b);
    } else if b == LF {
      DataEnd(g, s);
    } else {
      NotLineFeed(g, t, b);
      SettledAlready(Fail(t, HPE_STRICT));
    }
  }

  lemma ChunkCrStep(g: Grammar, s: Core, a: byte)
    requires s.st.ChunkDataCr?
    ensures Step(g, s, a) == if a == CR then s.(st := ChunkDataLf) else Fail(s, if a == LF then HPE_CR_EXPECTED else HPE_STRICT)
  {
  }

  /** After the digits of a chunk size there is CR LF or an extension. */
  lemma SizeEndIsStrict(g: Grammar, s: Core, a: byte, b: byte)
    requires s.st.ChunkSize? && !IsHex(a)
    ensures a == CR && b != LF ==> Feed(g, s, [a, b]).st == Failed(2)
    ensures a != CR && a != SEMICOLON ==> Feed(g, s, [a]).st == Failed(if a == LF then 25 else 12)
  {
    hide Feed, Settle, Step, IsHex;
    SettledAlready(s);
    SizeEndStep(g, s, a);
    var t := Step(g, s, a);
    if a == CR && b != LF {
      FeedTwo(g, s, a, b);
      SettledAlready(t);
      NotLineFeed(g, t, b);
      SettledAlready(Step(g, t, b));
    } else if a != CR && a != SEMICOLON {
      FeedByte(g, s, a);
      SettledAlready(t);
    }
  }

  lemma SizeEndStep(g: Grammar, s: Core, a: byte)
    requires s.st.ChunkSize? && !IsHex(a)
    ensures a == CR ==> Step(g, s, a) == s.(st := ChunkSizeLf)
    ensures a != CR && a != SEMICOLON ==> Step(g, s, a) == Fail(s, if a == LF then HPE_CR_EXPECTED else HPE_INVALID_CHUNK_SIZE)
  {
  }

  /** A chunk size has at least one digit. */
  lemma NoSizeIsRefused(g: Grammar, s: Core, b: byte)
    requires s.st.ChunkDigit? && !IsHex(b)
    ensures Feed(g, s, [b]).st == Failed(12)
  {
    hide Feed, Settle;
    FeedByte(g, s, b);
    SettledAlready(s);
    SettledAlready(Step(g, s, b));
  }

  /** The recogniser of extensions takes these bytes, and no sooner than at their end. */
  ghost predicate IsExtension(g: Grammar, e: seq<byte>) {
    e != [] && g.ext(e).Done? && forall i :: 0 < i < |e| ==> g.ext(e[..i]).More?
  }

  /** An extension after the size changes nothing for the chunk. */
  lemma ExtensionReads(g: Grammar, s: Core, e: seq<byte>)
    requires s.st.ChunkSize? && IsExtension(g, e)
    ensures Feed(g, s, [SEMICOLON] + (e + [LF])) == Settle(s.(st := OnChunkHeader, token := e))
  {
    hide Feed, Settle, Step;
    FeedConcat(g, s, [SEMICOLON], e + [LF]);
    FeedByte(g, s, SEMICOLON);
    SettledAlready(s);
    SemicolonStep(g, s);
    var t := s.(st := Ext, token := []);
    SettledAlready(t);
    ExtensionFrom(g, t, e, 0);
    assert e[0..] == e;
    FeedConcat(g, t, e, [LF]);
    var u := t.(st := ChunkSizeLf, token := e);
    FeedByte(g, u, LF);
    SettledAlready(u);
    SizeLf(g, u);
  }

  lemma SemicolonStep(g: Grammar, s: Core)
    requires s.st.ChunkSize?
    ensures Step(g, s, SEMICOLON) == s.(st := Ext, token := [])
  {
  }

  lemma SizeLf(g: Grammar, s: Core)
    requires s.st.ChunkSizeLf?
    ensures Step(g, s, LF) == s.(st := OnChunkHeader)
  {
  }

  lemma {:induction false} ExtensionFrom(g: Grammar, s: Core, e: seq<byte>, k: nat)
    requires k < |e| && s.st.Ext? && s.token == e[..k] && IsExtension(g, e)
    ensures Feed(g, s, e[k..]) == s.(st := ChunkSizeLf, token := e)
    decreases |e| - k
  {
    hide Feed, Settle;
    var rest, b := e[k..], e[k];
    assert rest[1..] == e[k + 1..] && e[..k + 1] == e[..k] + [b];
    ByteFirst(g, s, rest);
    if k + 1 == |e| {
      assert e[..k + 1] == e && rest[1..] == [];
      FeedNothing(g, Step(g, s, b));
      SettledAlready(Step(g, s, b));
    } else {
      ExtensionFrom(g, s.(token := e[..k + 1]), e, k + 1);
    }
  }

  /** A request line that its recogniser refuses ends the parser with the recogniser's code, and not a
      byte before. */
  lemma {:induction false} BadLineIsRefused(g: Grammar, s: Core, t: seq<byte>, code: Errno, k: nat)
    requires k < |t| && s.st.Line? && s.token == t[..k]
    requires g.line(t) == Bad(code) && forall i :: 0 < i < |t| ==> g.line(t[..i]).More?
    ensures Feed(g, s, t[k..]) == s.(st := Failed(code), token := t)
    ensures forall i :: k <= i < |t| ==> !Feed(g, s, t[k..i]).st.Failed?
    decreases |t| - k
  {
    hide Feed, Settle;
    var rest, b := t[k..], t[k];
    assert rest[1..] == t[k + 1..] && t[..k + 1] == t[..k] + [b];
    SettledAlready(s);
    FeedNothing(g, s);
    ByteFirst(g, s, rest);
    if k + 1 == |t| {
      assert t[..k + 1] == t && rest[1..] == [];
      FeedNothing(g, Step(g, s, b));
      SettledAlready(Step(g, s, b));
    } else {
      var u := s.(token := t[..k + 1]);
      assert t[k..k] == [];
      assert Step(g, s, b) == u;
      BadLineIsRefused(g, u, t, code, k + 1);
      forall i | k < i < |t| ensures !Feed(g, s, t[k..i]).st.Failed? {
        assert t[k..i][0] == b && t[k..i][1..] == t[k + 1..i];
        ByteFirst(g, s, t[k..i]);
        assert Feed(g, s, t[k..i]) == Feed(g, u, t[k + 1..i]);
      }
    }
  }

  /** The same of a chunk extension. */
  lemma {:induction false} BadExtensionIsRefused(g: Grammar, s: Core, t: seq<byte>, code: Errno, k: nat)
    requires k < |t| && s.st.Ext? && s.token == t[..k]
    requires g.ext(t) == Bad(code) && forall i :: 0 < i < |t| ==> g.ext(t[..i]).More?
    ensures Feed(g, s, t[k..]) == s.(st := Failed(code), token := t)
    ensures forall i :: k <= i < |t| ==> !Feed(g, s, t[k..i]).st.Failed?
    decreases |t| - k
  {
    hide Feed, Settle;
    var rest, b := t[k..], t[k];
    assert rest[1..] == t[k + 1..] && t[..k + 1] == t[..k] + [b];
    SettledAlready(s);
    FeedNothing(g, s);
    ByteFirst(g, s, rest);
    if k + 1 == |t| {
      assert t[..k + 1] == t && rest[1..] == [];
      FeedNothing(g, Step(g, s, b));
      SettledAlready(Step(g, s, b));
    } else {
      var u := s.(token := t[..k + 1]);
      assert t[k..k] == [];
      assert Step(g, s, b) == u;
      BadExtensionIsRefused(g, u, t, code, k + 1);
      forall i | k < i < |t| ensures !Feed(g, s, t[k..i]).st.Failed? {
        assert t[k..i][0] == b && t[k..i][1..] == t[k + 1..i];
        ByteFirst(g, s, t[k..i]);
        assert Feed(g, s, t[k..i]) == Feed(g, u, t[k + 1..i]);
      }
    }
  }
}
