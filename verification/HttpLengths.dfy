/** The bodies of all runs: an application that only listens to the callbacks, reads the header names
    and adds up what it is given, finds that every message it is told is complete had exactly the
    body that its Content-Length or its chunk sizes announced. */
module HttpLengths {
  import opened Bytes
  import opened HttpSpec
  import opened HttpBodies
  import opened HttpSteps
  import opened HttpFraming
  import opened HttpMessages
  import opened HttpEvents

  /* ---- the listener's account ------------------------------------------------------------------- */

  datatype Claim = NoClaim | Claim(value: seq<byte>)

  /** The name and value being read, the value of Content-Length, the body bytes and the sum of the chunk
      sizes of the current message, and how many messages were complete with another body than announced. */
  datatype Account = Account(name: seq<byte>, value: seq<byte>, claim: Claim, body: nat, chunks: nat, unpaid: nat)

  const NEW := Account([], [], NoClaim, 0, 0, 0)

  function Owed(a: Account): nat {
    if a.claim.Claim? then LengthOf(a.claim.value) else a.chunks
  }

  predicate Paid(a: Account) {
    a.body == Owed(a)
  }

  function Hear(a: Account, e: Event): Account {
    match e
    case Reset => a
    case MessageBegin => NEW.(unpaid := a.unpaid)
    case SpanByte(kind, b) =>
      (match kind
       case FieldSpan => a.(name := a.name + [b])
       case ValueSpan => a.(value := a.value + [b])
       case BodySpan => a.(body := a.body + 1))
    case FieldComplete => a.(value := [])
    case ValueComplete => a.(name := [], claim := if Lower(a.name) == CONTENT_LENGTH then Claim(a.value) else a.claim)
    case HeadersComplete => a
    case ChunkHeader(size) => a.(chunks := a.chunks + size)
    case ChunkComplete => a
    case MessageComplete => if Paid(a) then a else a.(unpaid := a.unpaid + 1)
  }

  function Scan(log: seq<Event>): Account {
    if log == [] then NEW else Hear(Scan(log[..|log| - 1]), log[|log| - 1])
  }

  lemma ScanNext(log: seq<Event>, e: Event)
    ensures Scan(log + [e]) == Hear(Scan(log), e)
  {
    assert (log + [e])[..|log|] == log;
  }

  /** No message is unpaid iff each was paid when it was complete. */
  lemma {:induction false} AllPaid(log: seq<Event>)
    ensures Scan(log).unpaid == 0 <==> forall i :: 0 <= i < |log| && log[i].MessageComplete? ==> Paid(Scan(log[..i]))
    decreases |log|
  {
    hide Paid, LengthOf, Lower;
    if log != [] {
      var k := |log| - 1;
      AllPaid(log[..k]);
      forall i | 0 <= i < k
        ensures log[..k][..i] == log[..i] && log[..k][i] == log[i]
      {
      }
      assert Scan(log).unpaid == 0 <==> Scan(log[..k]).unpaid == 0 && (log[k].MessageComplete? ==> Paid(Scan(log[..k])));
    }
  }

  /* ---- names ----------------------------------------------------------------------------------------- */

  /** The letters of a name are the beginning of Content-Length. */
  predicate Leads(name: seq<byte>) {
    Lower(name) <= CONTENT_LENGTH
  }

  lemma LeadsBefore(name: seq<byte>, b: byte)
    requires Leads(name + [b])
    ensures Leads(name)
  {
    hide Lower, LowerByte;
    LowerNext(name, b);
    var n := |Lower(name)|;
    assert Lower(name) == Lower(name + [b])[..n];
    assert Lower(name + [b]) == CONTENT_LENGTH[..n + 1];
    assert CONTENT_LENGTH[..n + 1][..n] == CONTENT_LENGTH[..n];
  }

  lemma StillNotLeads(name: seq<byte>, b: byte)
    requires !Leads(name)
    ensures !Leads(name + [b]) && Lower(name) != CONTENT_LENGTH
  {
    if Leads(name + [b]) {
      LeadsBefore(name, b);
    }
  }

  lemma OpeningLeads(w: Word)
    requires w.On? || w.EntLength?
    ensures CONTENT_LENGTH[..|Opening(w)|] == Opening(w) && |Opening(w)| + |Letters(w)| <= |CONTENT_LENGTH|
    ensures CONTENT_LENGTH[|Opening(w)|..|Opening(w)| + |Letters(w)|] == Letters(w)
  {
    if w.On? {
      assert CONTENT_LENGTH == [99] + [111, 110] + [116, 101, 110, 116, 45, 108, 101, 110, 103, 116, 104];
      assert Opening(w) == [99] && Letters(w) == [111, 110];
    } else {
      assert CONTENT_LENGTH == [99, 111, 110, 116] + [101, 110, 116, 45, 108, 101, 110, 103, 116, 104];
      assert Opening(w) == [99, 111, 110, 116] && Letters(w) == [101, 110, 116, 45, 108, 101, 110, 103, 116, 104];
    }
  }

  lemma OpeningDiffers(w: Word)
    requires NameWord(w) && !w.On? && !w.EntLength?
    ensures 0 < |Opening(w)| <= |CONTENT_LENGTH| && Opening(w)[|Opening(w)| - 1] != CONTENT_LENGTH[|Opening(w)| - 1]
  {
  }

  /** A letter that does not fit its keyword takes the name away from Content-Length. */
  lemma WordLeavesLeads(w: Word, i: nat, name: seq<byte>, b: byte)
    requires NameWord(w) && i < |Letters(w)| && Lower(name) == Opening(w) + Letters(w)[..i]
    ensures Lower(name) != CONTENT_LENGTH && (LowerByte(b) != Letters(w)[i] ==> !Leads(name + [b]))
  {
    hide Opening, Letters, Lower, LowerByte;
    LowerNext(name, b);
    assert |Lower(name)| == |Opening(w)| + i;
    var n := |Opening(w)|;
    if w.On? || w.EntLength? {
      OpeningLeads(w);
      assert CONTENT_LENGTH[n + i] == CONTENT_LENGTH[n..n + |Letters(w)|][i] == Letters(w)[i];
      assert Lower(name + [b])[n + i] == LowerByte(b);
    } else {
      OpeningDiffers(w);
      assert Lower(name + [b])[n - 1] == Opening(w)[n - 1] && Lower(name)[n - 1] == Opening(w)[n - 1];
    }
  }

  /** A whole keyword. */
  lemma WordIsRead(w: Word, name: seq<byte>)
    requires NameWord(w) && Lower(name) == Opening(w) + Letters(w)
    ensures w.On? ==> Lower(name) == [99, 111, 110]
    ensures w.EntLength? ==> Lower(name) == CONTENT_LENGTH
    ensures !w.On? && !w.EntLength? ==> !Leads(name)
  {
    if !w.On? && !w.EntLength? {
      OpeningDiffers(w);
      assert Lower(name)[|Opening(w)| - 1] == Opening(w)[|Opening(w)| - 1];
    }
  }

  lemma LongerThanLength(name: seq<byte>, b: byte)
    requires Lower(name) == CONTENT_LENGTH
    ensures !Leads(name + [b])
  {
    LowerNext(name, b);
  }

  /** The first letter of a name; after `con` two keywords are possible. */
  lemma FirstLeads(b: byte)
    ensures LowerByte(b) != 99 ==> !Leads([b])
    ensures Lower([b]) == [LowerByte(b)]
  {
    assert Lower([b])[0] == LowerByte(b) && CONTENT_LENGTH[0] == 99;
  }

  lemma FourthLeads(name: seq<byte>, b: byte)
    requires Lower(name) == [99, 111, 110]
    ensures LowerByte(b) != 116 ==> !Leads(name + [b])
    ensures LowerByte(b) == 116 ==> Lower(name + [b]) == Opening(EntLength)
    ensures LowerByte(b) == 110 ==> Lower(name + [b]) == Opening(Ection)
    ensures Lower(name) != CONTENT_LENGTH
  {
    LowerNext(name, b);
    assert Lower(name + [b]) == [99, 111, 110, LowerByte(b)];
    assert Lower(name + [b])[3] == LowerByte(b) && CONTENT_LENGTH[3] == 116;
  }

  /* ---- the invariant -------------------------------------------------------------------------------- */

  /** What the machine's state says about the listener's account. */
  datatype Part =
    | Front | AtLine | Edge | Words(w: Word) | AfterCon | Whole | OtherName | Named | BeforeValue | Text | TextWord
    | Digits | Blanks | Over | Headed | Chunks | InChunk | InBlock | Completing | UpgradeCompleting | Leaving | Idle | Nowhere

  function PartOf(st: St): Part {
    match st
    case Start => Front case OnReset => Front case OnBegin => Front
    case Line => AtLine
    case HeadersStart => Edge case FieldStart => Edge case Field => Edge case HeadersLf => Edge case TrailersDone => Edge
    case FieldWord(w) => Words(w)
    case FieldCo => AfterCon
    case FieldColon => Whole
    case FieldGeneral => OtherName
    case FieldOtherwise => Named case FieldDone => Named
    case FieldKnown => BeforeValue case DiscardWs => BeforeValue case DiscardWsLf => BeforeValue case DiscardLws => BeforeValue
    case ValueStart => BeforeValue
    case Value => Text case Conn => Text case ConnWs => Text case ConnToken => Text
    case ConnWord(_) => TextWord case TeChunked => TextWord
    case TeLast => Text case TeToken => Text case TeOws => Text
    case Length => Digits
    case LengthWs => Blanks
    case ValueEnd => Over case ValueLf => Over case ValueLws => Over case ValueDone => Over
    case HeadersDone => Headed case AfterHeaders => Headed
    case ChunkClear => Chunks case ChunkDigit => Chunks case ChunkSize => Chunks case ChunkSizeEnd => Chunks
    case Ext => Chunks case ChunkSizeLf => Chunks case OnChunkHeader => Chunks
    case ChunkDataCr => Chunks case ChunkDataLf => Chunks case ChunkDone => Chunks
    case ChunkKind => InChunk case ChunkStart => InChunk case ChunkData => InChunk
    case BodyStart => InBlock case Body => InBlock
    case BodyComplete => Completing case NoBodyComplete => Completing
    case UpgradeComplete => UpgradeCompleting
    case GoUpgrade => Leaving case Upgraded => Leaving
    case EofStart => Nowhere case EofBody => Nowhere
    case _ => Idle
  }

  /** Between two headers: the account knows the length iff the machine does, and they agree on it. */
  predicate Even(f: Flags, length: nat, a: Account) {
    && a.unpaid == 0 && a.body == a.chunks && (!f.trailing ==> a.body == 0)
    && (f.contentLength <==> a.claim.Claim?) && (f.contentLength ==> length == LengthOf(a.claim.value))
  }

  /** Reading the value of Content-Length. */
  predicate Measuring(hs: HeaderKind, f: Flags, a: Account) {
    hs.ContentLength? && Lower(a.name) == CONTENT_LENGTH && !f.trailing && a.claim.NoClaim? && a.body == a.chunks == 0 && a.unpaid == 0
  }

  predicate Kept(p: Part, hs: HeaderKind, f: Flags, length: nat, index: nat, connect: bool, a: Account) {
    (p.Words? || p.TextWord? || index == 0) &&
    match p
    case Front => a.unpaid == 0 && !f.contentLength
    case AtLine => a == NEW && !f.contentLength
    case Edge => a.name == [] && Even(f, length, a)
    case Words(w) => NameWord(w) && index < |Letters(w)| && Lower(a.name) == Opening(w) + Letters(w)[..index] && Even(f, length, a)
    case AfterCon => Lower(a.name) == [99, 111, 110] && Even(f, length, a)
    case Whole => (if hs.ContentLength? then Lower(a.name) == CONTENT_LENGTH else !Leads(a.name)) && Even(f, length, a)
    case OtherName => !hs.ContentLength? && !Leads(a.name) && Even(f, length, a)
    case Named => (hs.ContentLength? <==> Lower(a.name) == CONTENT_LENGTH) && Even(f, length, a)
    case BeforeValue => (hs.ContentLength? <==> Lower(a.name) == CONTENT_LENGTH) && a.value == [] && Even(f, length, a)
    case Text => !hs.ContentLength? && Lower(a.name) != CONTENT_LENGTH && Even(f, length, a)
    case TextWord => !hs.ContentLength? && Lower(a.name) != CONTENT_LENGTH && Even(f, length, a)
    case Digits => Measuring(hs, f, a) && !f.contentLength && AllDigits(a.value) && AllHex(a.value) && length == Numeral(10, a.value)
    case Blanks => Measuring(hs, f, a) && !f.contentLength && length == LengthOf(a.value)
    case Over =>
      if hs.ContentLength? then Measuring(hs, f, a) && f.contentLength && length == LengthOf(a.value)
      else Lower(a.name) != CONTENT_LENGTH && Even(f, length, a)
    case Headed => a.name == [] && !f.trailing && Even(f, length, a)
    case Chunks => a.name == [] && a.unpaid == 0 && a.claim.NoClaim? && !f.contentLength && a.body == a.chunks
    case InChunk => a.name == [] && a.unpaid == 0 && a.claim.NoClaim? && !f.contentLength && a.body + length == a.chunks
    case InBlock => a.unpaid == 0 && a.claim.Claim? && a.body + length == LengthOf(a.claim.value)
    case Completing => a.unpaid == 0 && Paid(a)
    case UpgradeCompleting => a.unpaid == 0 && (Paid(a) || (connect && a.body == 0))
    case Leaving => a.unpaid == 0 || (connect && a.body == 0 && a.unpaid == 1 && !Paid(a))
    case Idle => a.unpaid == 0
    case Nowhere => false
  }

  predicate EndsMessage(log: seq<Event>) {
    log != [] && log[|log| - 1].MessageComplete?
  }

  /** The invariant, for a state that is yet to be entered. A debt is made by the last event. */
  predicate KeptIn(s: Core, p: Part) {
    && Kept(p, s.hs, s.flags, s.length, s.index, s.connect, Scan(s.log))
    && (p.Leaving? ==> Scan(s.log).unpaid == 0 || EndsMessage(s.log))
  }

  predicate Accounted(s: Core) {
    KeptIn(s, PartOf(s.st))
  }

  lemma FailIsAccounted(s: Core, p: Part, code: Errno)
    requires KeptIn(s, p) && !p.Leaving? && s.index == 0
    ensures Accounted(Fail(s, code))
  {
  }

  lemma IntoIsAccounted(s: Core, kind: SpanKind, b: byte, st: St)
    requires Kept(PartOf(st), s.hs, s.flags, s.length, s.index, s.connect, Hear(Scan(s.log), SpanByte(kind, b)))
    requires !PartOf(st).Leaving?
    ensures Accounted(Into(s, kind, b, st))
  {
    hide Kept, PartOf, Scan, Hear;
    ScanNext(s.log, SpanByte(kind, b));
  }

  /* ---- header names --------------------------------------------------------------------------------- */

  /** What the name read so far must be, given the next byte, when the machine takes it for no keyword. */
  predicate Ordinary(s: Core, b: byte) {
    var a := Scan(s.log);
    && s.index == 0 && !s.hs.ContentLength? && (b == COLON ==> Lower(a.name) != CONTENT_LENGTH) && (IsToken(b) ==> !Leads(a.name + [b]))
    && Even(s.flags, s.length, a)
  }

  lemma NameEndAccounted(s: Core, b: byte)
    requires s.index == 0 && Even(s.flags, s.length, Scan(s.log))
    requires b == COLON ==> (s.hs.ContentLength? <==> Lower(Scan(s.log).name) == CONTENT_LENGTH)
    ensures Accounted(InFieldOtherwise(s, b))
  {
    hide Scan, Lower;
  }

  lemma OrdinaryAccounted(s: Core, b: byte)
    requires Ordinary(s, b)
    ensures Accounted(InFieldGeneral(s, b))
  {
    hide InFieldOtherwise, Scan, Lower, Leads, IsToken;
    if IsToken(b) {
      IntoIsAccounted(s, FieldSpan, b, FieldGeneral);
    } else {
      NameEndAccounted(s, b);
    }
  }

  lemma GeneralAccounted(s: Core, b: byte)
    requires KeptIn(s, OtherName)
    ensures Accounted(InFieldGeneral(s, b))
  {
    hide InFieldGeneral, Scan, Leads, Lower;
    StillNotLeads(Scan(s.log).name, b);
    OrdinaryAccounted(s, b);
  }

  lemma ColonAccounted(s: Core, b: byte)
    requires KeptIn(s, Whole)
    ensures Accounted(InFieldColon(s, b))
  {
    hide InFieldGeneral, Scan, Leads, Lower;
    var name := Scan(s.log).name;
    if !s.hs.ContentLength? {
      StillNotLeads(name, b);
    }
    if b == SP {
      FailIsAccounted(s, Whole, HPE_INVALID_HEADER_TOKEN);
    } else if b != COLON {
      if s.hs.ContentLength? {
        LongerThanLength(name, b);
      }
      OrdinaryAccounted(s.(hs := General), b);
    }
  }

  lemma WordAccounted(s: Core, w: Word, b: byte)
    requires KeptIn(s, Words(w))
    ensures Accounted(InFieldWord(s, w, b))
  {
    hide InFieldGeneral, Scan, Leads, Lower, LowerByte, Letters, Opening, WordField;
    var name := Scan(s.log).name;
    WordLeavesLeads(w, s.index, name, b);
    if LowerByte(b) == Letters(w)[s.index] {
      LowerNext(name, b);
      assert Letters(w)[..s.index + 1] == Letters(w)[..s.index] + [Letters(w)[s.index]];
      if s.index + 1 == |Letters(w)| {
        assert Letters(w)[..s.index + 1] == Letters(w);
        WordReadAccounted(s, w, b);
      } else {
        IntoIsAccounted(s.(index := s.index + 1), FieldSpan, b, FieldWord(w));
      }
    } else {
      OrdinaryAccounted(s.(index := 0, hs := General), b);
    }
  }

  lemma WordReadAccounted(s: Core, w: Word, b: byte)
    requires NameWord(w) && Even(s.flags, s.length, Scan(s.log)) && Lower(Scan(s.log).name + [b]) == Opening(w) + Letters(w)
    ensures Accounted(WordField(Into(s.(index := 0), FieldSpan, b, Field), w))
  {
    hide Scan, Leads, Lower, Letters, Opening;
    WordIsRead(w, Scan(s.log).name + [b]);
    ScanNext(s.log, SpanByte(FieldSpan, b));
  }

  lemma ConAccounted(s: Core, b: byte)
    requires KeptIn(s, AfterCon)
    ensures Accounted(InFieldCo(s, b))
  {
    hide InFieldGeneral, Scan, Leads, Lower, LowerByte, Letters, Opening;
    var name := Scan(s.log).name;
    FourthLeads(name, b);
    if LowerByte(b) == 110 || LowerByte(b) == 116 {
      var w := if LowerByte(b) == 110 then Ection else EntLength;
      OpensWord(s, w, b);
    } else {
      OrdinaryAccounted(s.(hs := General), b);
    }
  }

  /** The letter that opens a keyword. */
  lemma OpensWord(s: Core, w: Word, b: byte)
    requires NameWord(w) && s.index == 0 && Even(s.flags, s.length, Scan(s.log)) && Lower(Scan(s.log).name + [b]) == Opening(w)
    ensures Accounted(Into(s, FieldSpan, b, FieldWord(w)))
  {
    hide Scan, Leads, Lower, Letters, Opening;
    assert Opening(w) + Letters(w)[..0] == Opening(w);
    IntoIsAccounted(s, FieldSpan, b, FieldWord(w));
  }

  lemma LetterAccounted(s: Core, b: byte)
    requires KeptIn(s, Edge)
    ensures Accounted(InField(s, b))
  {
    hide InFieldGeneral, Scan, Leads, Lower, LowerByte, Letters, Opening;
    var name := Scan(s.log).name;
    assert name + [b] == [b];
    FirstLeads(b);
    FirstOpens(b);
    var c := LowerByte(b);
    if c == 99 {
      OpensWord(s, On, b);
    } else if c == 112 {
      OpensWord(s, RoxyConnection, b);
    } else if c == 116 {
      OpensWord(s, RansferEncoding, b);
    } else if c == 117 {
      OpensWord(s, Pgrade, b);
    } else {
      OrdinaryAccounted(s.(hs := General), b);
    }
  }

  lemma FirstOpens(b: byte)
    ensures Lower([]) != CONTENT_LENGTH
    ensures Opening(On) == [99] && Opening(RoxyConnection) == [112] && Opening(RansferEncoding) == [116] && Opening(Pgrade) == [117]
  {
  }

  lemma FieldStartAccounted(s: Core, b: byte)
    requires KeptIn(s, Edge)
    ensures Accounted(InFieldStart(s, b))
  {
    hide InField, Scan;
    if b == LF || b == COLON {
      FailIsAccounted(s, Edge, HPE_INVALID_HEADER_TOKEN);
    } else if b != CR {
      LetterAccounted(s, b);
    }
  }

  /* ---- values that are plain text -------------------------------------------------------------------- */

  /** A step inside a value that is not Content-Length's: it may add a byte to the value, end it or fail,
      and changes nothing that the account speaks of. */
  predicate Texts(s: Core, r: Core) {
    && !r.hs.ContentLength? && r.length == s.length
    && r.flags.contentLength == s.flags.contentLength && r.flags.trailing == s.flags.trailing
    && (r.log == s.log || exists b :: r.log == s.log + [SpanByte(ValueSpan, b)])
    && (PartOf(r.st).TextWord? || (r.index == 0 && (PartOf(r.st).Text? || PartOf(r.st).Over? || r.st.Failed?)))
  }

  lemma TextAccounted(s: Core, r: Core)
    requires (KeptIn(s, Text) || KeptIn(s, TextWord)) && Texts(s, r)
    ensures Accounted(r)
  {
    hide Scan, Lower, LengthOf;
    if r.log != s.log {
      var b :| r.log == s.log + [SpanByte(ValueSpan, b)];
      ScanNext(s.log, SpanByte(ValueSpan, b));
    }
  }

  lemma IntoTexts(s: Core, t: Core, b: byte, st: St)
    requires t.log == s.log && t.length == s.length && !t.hs.ContentLength?
    requires t.flags.contentLength == s.flags.contentLength && t.flags.trailing == s.flags.trailing
    requires PartOf(st).TextWord? || (t.index == 0 && PartOf(st).Text?)
    ensures Texts(s, Into(t, ValueSpan, b, st))
  {
    hide PartOf;
  }

  lemma ValueEndTexts(s: Core, b: byte)
    requires !s.hs.ContentLength? && s.index == 0
    ensures Texts(s, InValueEnd(s, b))
  {
  }

  lemma ValueTexts(s: Core, b: byte)
    requires !s.hs.ContentLength? && s.index == 0
    ensures Texts(s, InValue(s, b)) && Texts(s, InConnToken(s, b))
  {
    hide InValueEnd, IsFieldValue, Texts;
    ValueEndTexts(s, b);
    IntoTexts(s, s, b, Value);
    IntoTexts(s, s, b, Conn);
    IntoTexts(s, s, b, ConnToken);
  }

  /** A change of `header_state` or of a flag the account does not speak of. */
  predicate Alike(s: Core, t: Core) {
    && t.log == s.log && t.length == s.length && (!s.hs.ContentLength? ==> !t.hs.ContentLength?)
    && t.flags.contentLength == s.flags.contentLength && t.flags.trailing == s.flags.trailing
  }

  lemma AlikeTexts(s: Core, t: Core, r: Core)
    requires Alike(s, t) && Texts(t, r)
    ensures Texts(s, r)
  {
  }

  lemma TeTokenTexts(s: Core, b: byte)
    requires !s.hs.ContentLength? && s.index == 0
    ensures Texts(s, InTeToken(s, b))
  {
    hide InValue, IsFieldValue, Texts;
    ValueTexts(s.(hs := General), b);
    AlikeTexts(s, s.(hs := General), InValue(s.(hs := General), b));
    IntoTexts(s, s, b, TeOws);
    IntoTexts(s, s, b, TeToken);
  }

  lemma TeChunkedTexts(s: Core, b: byte)
    requires !s.hs.ContentLength?
    ensures Texts(s, InTeChunked(s, b))
  {
    hide InTeToken, Letters, OrBit5, Texts;
    TeTokenTexts(s.(index := 0), b);
    AlikeTexts(s, s.(index := 0), InTeToken(s.(index := 0), b));
    IntoTexts(s, s.(index := 0), b, TeLast);
    IntoTexts(s, s.(index := s.index + 1), b, TeChunked);
  }

  lemma TeLastTexts(s: Core, b: byte)
    requires !s.hs.ContentLength? && s.index == 0
    ensures Texts(s, InTeLast(s, b)) && Texts(s, InTeOws(s, b))
  {
    hide InTeToken, InTeChunked, InValueEnd, Texts;
    ValueEndTexts(s.(hs := TokenChunked), b);
    AlikeTexts(s, s.(hs := TokenChunked), InValueEnd(s.(hs := TokenChunked), b));
    TeTokenTexts(s, b);
    TeChunkedTexts(s, b);
    IntoTexts(s, s, b, TeLast);
    IntoTexts(s, s, b, TeOws);
    FailTexts(s, HPE_INVALID_TRANSFER_ENCODING);
  }

  lemma FailTexts(s: Core, code: Errno)
    requires !s.hs.ContentLength? && s.index == 0
    ensures Texts(s, Fail(s, code))
  {
  }

  lemma ConnTexts(s: Core, b: byte)
    requires !s.hs.ContentLength? && s.index == 0
    ensures Texts(s, InConn(s, b))
  {
    hide InConnToken, LowerByte, Texts;
    ValueTexts(s, b);
    IntoTexts(s, s, b, Conn);
    IntoTexts(s, s, b, ConnWord(Lose));
    IntoTexts(s, s, b, ConnWord(EepAlive));
    IntoTexts(s, s, b, ConnWord(Pgrade));
  }

  lemma ConnWordTexts(s: Core, w: Word, b: byte)
    requires !s.hs.ContentLength?
    ensures Texts(s, InConnWord(s, w, b))
  {
    hide InConnToken, LowerByte, Letters, Texts, WordToken;
    ValueTexts(s.(index := 0), b);
    AlikeTexts(s, s.(index := 0), InConnToken(s.(index := 0), b));
    WordTokenIsToken(w);
    IntoTexts(s, s.(index := 0, hs := WordToken(w)), b, ConnWs);
    IntoTexts(s, s.(index := s.index + 1), b, ConnWord(w));
  }

  lemma ApplyTokenAlike(s: Core)
    ensures Alike(s, ApplyToken(s)) && ApplyToken(s).index == s.index && ApplyToken(s).st == s.st
    ensures ApplyToken(s).hs.ContentLength? <==> s.hs.ContentLength?
  {
    match s.hs
    case TokenKeepAlive =>
    case TokenClose =>
    case TokenUpgrade =>
    case TokenChunked =>
    case _ =>
  }

  lemma ConnWsTexts(s: Core, b: byte)
    requires !s.hs.ContentLength? && s.index == 0
    ensures Texts(s, InConnWs(s, b))
  {
    hide InConnToken, InValueEnd, Texts, ApplyToken;
    ValueEndTexts(s, b);
    ValueTexts(s.(hs := General), b);
    AlikeTexts(s, s.(hs := General), InConnToken(s.(hs := General), b));
    ApplyTokenAlike(s);
    IntoTexts(s, s, b, ConnWs);
    IntoTexts(s, ApplyToken(s), b, Conn);
  }

  /* ---- the value of Content-Length ------------------------------------------------------------------- */

  lemma BlanksAccounted(s: Core, b: byte)
    requires KeptIn(s, Blanks)
    ensures Accounted(InLengthWs(s, b))
  {
    hide Scan, Lower, LengthOf, InValueEnd;
    if IsBlank(b) {
      SameDigits(Scan(s.log).value, b);
      IntoIsAccounted(s, ValueSpan, b, LengthWs);
    } else if b == LF || b == CR {
      EndAccounted(s.(flags := s.flags.(contentLength := true)), b);
    } else {
      FailIsAccounted(s, Blanks, HPE_INVALID_CONTENT_LENGTH);
    }
  }

  lemma EndAccounted(s: Core, b: byte)
    requires KeptIn(s, Over)
    ensures Accounted(InValueEnd(s, b))
  {
    hide Scan, Lower, LengthOf;
    FailIsAccounted(s, Over, HPE_CR_EXPECTED);
    FailIsAccounted(s, Over, HPE_INVALID_HEADER_TOKEN);
  }

  lemma SameDigits(value: seq<byte>, b: byte)
    requires IsBlank(b)
    ensures LengthOf(value + [b]) == LengthOf(value)
  {
    DigitsStop(value, b);
  }

  lemma DigitsAccounted(s: Core, b: byte)
    requires KeptIn(s, Digits)
    ensures Accounted(InLength(s, b))
  {
    hide InLengthWs, MulAdd, AfterOverflow, Scan, Kept;
    if IsDigit(b) {
      DigitAccounted(s, b);
    } else {
      DigitsAreMeasured(s);
      BlanksAccounted(s, b);
    }
  }

  lemma DigitsAreMeasured(s: Core)
    requires KeptIn(s, Digits)
    ensures KeptIn(s, Blanks)
  {
    hide Scan, Lower, LengthOf;
    DigitsMeasure(Scan(s.log).value);
  }

  lemma DigitAccounted(s: Core, b: byte)
    requires KeptIn(s, Digits) && IsDigit(b)
    ensures Accounted(Into(s, ValueSpan, b, Failed(HPE_INVALID_CONTENT_LENGTH)).(length := AfterOverflow(s.length, 10)))
    ensures var n := MulAdd(s.length, 10, b - 48); n >= 0 ==> Accounted(Into(s, ValueSpan, b, Length).(length := n))
  {
    hide Scan, Lower, MulAdd, AfterOverflow, Numeral;
    DigitNext(Scan(s.log).value, b);
    MulAddSums(s.length, b - 48);
    ScanNext(s.log, SpanByte(ValueSpan, b));
  }

  lemma MulAddSums(n: nat, d: nat)
    ensures MulAdd(n, 10, d) >= 0 ==> MulAdd(n, 10, d) == n * 10 + d
  {
  }

  /* ---- the beginning and the end of a value ------------------------------------------------------------ */

  lemma BeforeLength(s: Core)
    requires Framed(s) && PhaseOf(s.st).ValuePhase? && s.hs.ContentLength? && !s.flags.contentLength
    ensures s.length == 0 && !s.flags.trailing
  {
  }

  lemma BeforeIsText(s: Core, t: Core)
    requires KeptIn(s, BeforeValue) && !s.hs.ContentLength? && Alike(s, t) && t.index == 0
    ensures KeptIn(t, Text)
  {
    hide Scan, Lower, LengthOf;
  }

  lemma NoDigitsYet(s: Core)
    requires KeptIn(s, BeforeValue) && Framed(s) && PhaseOf(s.st).ValuePhase? && s.hs.ContentLength? && !s.flags.contentLength
    ensures KeptIn(s, Digits)
  {
    hide Scan, Lower, LengthOf;
    BeforeLength(s);
  }

  lemma ValueStartAccounted(s: Core, b: byte)
    requires KeptIn(s, BeforeValue) && Framed(s) && PhaseOf(s.st).ValuePhase?
    ensures Accounted(InValueStart(s, b))
  {
    hide InConn, InLength, InTeChunked, InValue, Kept, Texts, Framed;
    var coding := s.(flags := s.flags.(transferEncoding := true, chunked := false));
    var asked := s.(flags := s.flags.(upgrade := true), hs := General);
    NoIndexBefore(s);
    match s.hs
    case Connection =>
      BeforeIsText(s, s);
      ConnTexts(s, b);
      TextAccounted(s, InConn(s, b));
    case ContentLength =>
      if s.flags.contentLength {
        FailIsAccounted(s, BeforeValue, HPE_UNEXPECTED_CONTENT_LENGTH);
      } else {
        NoDigitsYet(s);
        DigitsAccounted(s, b);
      }
    case TransferEncoding =>
      if s.flags.chunked {
        FailIsAccounted(s, BeforeValue, HPE_INVALID_TRANSFER_ENCODING);
      } else {
        BeforeIsText(s, coding);
        TeChunkedTexts(coding, b);
        TextAccounted(coding, InTeChunked(coding, b));
      }
    case Upgrade =>
      BeforeIsText(s, asked);
      ValueTexts(asked, b);
      TextAccounted(asked, InValue(asked, b));
    case _ =>
      BeforeIsText(s, s);
      ValueTexts(s, b);
      TextAccounted(s, InValue(s, b));
  }

  lemma NoIndexBefore(s: Core)
    requires KeptIn(s, BeforeValue)
    ensures s.index == 0
  {
  }

  lemma DiscardWsAccounted(s: Core, b: byte)
    requires KeptIn(s, BeforeValue) && Framed(s) && PhaseOf(s.st).ValuePhase?
    ensures Accounted(InDiscardWs(s, b))
  {
    hide InValueStart, Kept, Framed;
    NoIndexBefore(s);
    FailIsAccounted(s, BeforeValue, HPE_INVALID_HEADER_TOKEN);
    ValueStartAccounted(s, b);
  }

  /** When a value is complete the account knows the length iff the machine does. */
  lemma ValueIsComplete(s: Core)
    requires KeptIn(s, Over) || (KeptIn(s, BeforeValue) && !s.hs.ContentLength?)
    ensures KeptIn(Note(s, ValueComplete), Edge)
  {
    hide Scan, Lower, LengthOf;
    ScanNext(s.log, ValueComplete);
  }

  lemma TokenKeepsAccount(s: Core, p: Part)
    requires KeptIn(s, p) && (p.Over? || (p.BeforeValue? && !s.hs.ContentLength?))
    ensures KeptIn(ApplyToken(s), p) && (ApplyToken(s).hs.ContentLength? <==> s.hs.ContentLength?)
  {
    hide Scan, Lower, LengthOf, ApplyToken;
    ApplyTokenAlike(s);
    ApplyTokenConnect(s);
  }

  lemma ApplyTokenConnect(s: Core)
    ensures ApplyToken(s).connect == s.connect
  {
  }

  lemma NextLineAccounted(s: Core, p: Part, b: byte)
    requires KeptIn(s, p) && (p.Over? || (p.BeforeValue? && !s.hs.ContentLength?))
    ensures Accounted(InFieldStart(Note(ApplyToken(s), ValueComplete), b))
  {
    hide Kept, ApplyToken, InFieldStart;
    TokenKeepsAccount(s, p);
    ValueIsComplete(ApplyToken(s));
    FieldStartAccounted(Note(ApplyToken(s), ValueComplete), b);
  }

  lemma NoIndexOver(s: Core)
    requires KeptIn(s, Over)
    ensures s.index == 0
  {
  }

  lemma ValueLwsAccounted(s: Core, b: byte)
    requires KeptIn(s, Over)
    ensures Accounted(InValueLws(s, b))
  {
    hide Kept, ApplyToken, InFieldStart;
    NoIndexOver(s);
    FailIsAccounted(s, Over, HPE_INVALID_HEADER_TOKEN);
    NextLineAccounted(s, Over, b);
  }

  lemma DiscardLwsAccounted(s: Core, b: byte)
    requires KeptIn(s, BeforeValue)
    ensures Accounted(InDiscardLws(s, b))
  {
    hide Kept, ApplyToken, InFieldStart;
    NoIndexBefore(s);
    FailIsAccounted(s, BeforeValue, HPE_INVALID_HEADER_TOKEN);
    FailIsAccounted(s, BeforeValue, HPE_INVALID_CONTENT_LENGTH);
    if !s.hs.ContentLength? {
      NextLineAccounted(s, BeforeValue, b);
    }
  }

  /* ---- lines, chunks and bodies ------------------------------------------------------------------------ */

  lemma LineAccounted(g: Grammar, s: Core, b: byte)
    requires s.st.Line? && Accounted(s)
    ensures Accounted(InLine(g, s, b))
  {
    hide Scan;
  }

  lemma ChunksAnySize(s: Core, n: nat)
    requires KeptIn(s, Chunks)
    ensures KeptIn(s.(length := n), Chunks) && s.index == 0
  {
    hide Scan;
  }

  lemma ExtAccounted(g: Grammar, s: Core, b: byte)
    requires s.st.Ext? && Accounted(s)
    ensures Accounted(InExt(g, s, b))
  {
    hide Kept;
    ChunksAnySize(s, s.length);
    var t := s.token + [b];
    if g.ext(t).Bad? {
      FailIsAccounted(s.(token := t), Chunks, g.ext(t).code);
    }
  }

  lemma ChunkSizeEndAccounted(s: Core, b: byte)
    requires KeptIn(s, Chunks)
    ensures Accounted(InChunkSizeEnd(s, b))
  {
    hide Kept;
    ChunksAnySize(s, s.length);
    FailIsAccounted(s, Chunks, HPE_CR_EXPECTED);
    FailIsAccounted(s, Chunks, HPE_INVALID_CHUNK_SIZE);
  }

  lemma ChunkSizeAccounted(s: Core, b: byte)
    requires KeptIn(s, Chunks) && IsHex(b)
    ensures Accounted(ChunkSizeDigit(s, b))
  {
    hide Kept, MulAdd, AfterOverflow, HexValue, IsHex;
    var n, left := MulAdd(s.length, 16, HexValue(b)), AfterOverflow(s.length, 16);
    ChunksAnySize(s, left);
    FailIsAccounted(s.(length := left), Chunks, HPE_INVALID_CHUNK_SIZE);
    if n >= 0 {
      ChunksAnySize(s, n);
    }
  }

  lemma BlockAccounted(s: Core, b: byte)
    requires KeptIn(s, InBlock) && s.length > 0
    ensures Accounted(InBody(s, b, Body, BodyComplete))
  {
    hide Scan, LengthOf;
    ScanNext(s.log, SpanByte(BodySpan, b));
  }

  lemma ChunkDataAccounted(s: Core, b: byte)
    requires KeptIn(s, InChunk) && s.length > 0
    ensures Accounted(InBody(s, b, ChunkData, ChunkDataCr))
  {
    hide Scan;
    ScanNext(s.log, SpanByte(BodySpan, b));
  }

  lemma ExpectAccounted(s: Core, p: Part, b: byte, want: byte, st: St, code: Errno)
    requires KeptIn(s, p) && KeptIn(s, PartOf(st)) && s.index == 0 && !p.Leaving?
    ensures Accounted(Expect(s, b, want, st, code))
  {
    hide Kept;
    FailIsAccounted(s, p, code);
  }

  /* ---- moves ------------------------------------------------------------------------------------------- */

  lemma BeginMoveAccounted(s: Core)
    requires (s.st.OnReset? || s.st.OnBegin?) && Accounted(s)
    ensures Accounted(Move(s))
  {
    hide Scan;
    ScanNext(s.log, Reset);
    ScanNext(s.log, MessageBegin);
  }

  lemma FieldDoneAccounted(s: Core)
    requires s.st.FieldDone? && Accounted(s)
    ensures Accounted(Move(s))
  {
    hide Scan, Lower, LengthOf;
    ScanNext(s.log, FieldComplete);
  }

  lemma FieldKnownAccounted(s: Core)
    requires s.st.FieldKnown? && Accounted(s)
    ensures Accounted(Move(s))
  {
    hide Kept;
    NoIndexBefore(s);
    FailIsAccounted(s, BeforeValue, HPE_INVALID_CONTENT_LENGTH);
    FailIsAccounted(s, BeforeValue, HPE_INVALID_TRANSFER_ENCODING);
  }

  lemma ValueMoveAccounted(s: Core)
    requires s.st.ValueDone? && Accounted(s)
    ensures Accounted(Move(s))
  {
    hide Kept, Scan;
    ValueIsComplete(s);
  }

  lemma HeadersMoveAccounted(s: Core)
    requires s.st.HeadersDone? && Accounted(s)
    ensures Accounted(Move(s))
  {
    hide Scan, LengthOf, UpgradeWanted;
    ScanNext(s.log, HeadersComplete);
  }

  lemma LengthOrChunks(s: Core)
    requires Framed(s)
    ensures s.flags.chunked || s.flags.trailing ==> !s.flags.contentLength
  {
  }

  lemma AfterHeadersMoveAccounted(s: Core)
    requires s.st.AfterHeaders? && Accounted(s) && Framed(s)
    ensures Accounted(Move(s))
  {
    hide Scan, Framed, Move, Kept;
    LengthOrChunks(s);
    HeadersLead(s);
    AfterHeadersLeads(s);
    var r := Move(s);
    if r.st.Failed? {
      FailIsAccounted(s, Headed, r.st.code);
    }
  }

  /** Where the end of the headers may lead, whether or not it does. */
  lemma HeadersLead(s: Core)
    requires KeptIn(s, Headed)
    ensures s.index == 0
    ensures !s.flags.contentLength || s.length == 0 ==> KeptIn(s, Completing)
    ensures s.connect || s.length == 0 || !s.flags.contentLength ==> KeptIn(s, UpgradeCompleting)
    ensures !s.flags.contentLength ==> KeptIn(s, Chunks)
    ensures s.flags.contentLength ==> KeptIn(s, InBlock)
  {
    hide Scan, LengthOf;
  }

  lemma AfterHeadersLeads(s: Core)
    requires s.st.AfterHeaders?
    ensures var r := Move(s);
      && r == s.(st := r.st)
      && (if r.st.NoBodyComplete? then !s.flags.contentLength || s.length == 0
          else if r.st.UpgradeComplete? then s.connect || s.length == 0
          else if r.st.ChunkClear? then s.flags.chunked
          else if r.st.BodyStart? then s.flags.contentLength
          else r.st.Failed?)
  {
    hide AfterHeadersComplete;
    BodyKinds(s.flags, s.upgrade, s.connect, s.length);
  }

  lemma BodyKinds(f: Flags, upgrade: bool, connect: bool, length: nat)
    ensures var code := AfterHeadersComplete(Request, f, false, upgrade, connect, length);
      && code in {0, 1, 2, 3, 5}
      && (code == 0 ==> !f.contentLength || length == 0)
      && (code == 1 ==> connect || length == 0)
      && (code == 2 ==> f.chunked)
      && (code == 3 ==> f.contentLength)
  {
  }

  lemma ChunkMoveAccounted(s: Core)
    requires (s.st.ChunkClear? || s.st.ChunkDone?) && Accounted(s)
    ensures Accounted(Move(s))
  {
    hide Kept, Scan;
    if s.st.ChunkClear? {
      ChunksAnySize(s, 0);
    } else {
      ChunkCompleteIsHeard(s);
    }
  }

  lemma ChunkCompleteIsHeard(s: Core)
    requires KeptIn(s, Chunks)
    ensures KeptIn(Note(s, ChunkComplete), Chunks)
  {
    hide Scan;
    ScanNext(s.log, ChunkComplete);
  }

  lemma ChunkHeaderMoveAccounted(s: Core)
    requires s.st.OnChunkHeader? && Accounted(s)
    ensures Accounted(Move(s))
  {
    hide Kept, Scan;
    ChunkHeaderIsHeard(s);
  }

  lemma ChunkHeaderIsHeard(s: Core)
    requires KeptIn(s, Chunks)
    ensures KeptIn(Note(s, ChunkHeader(s.length)), InChunk)
  {
    hide Scan;
    ScanNext(s.log, ChunkHeader(s.length));
  }

  lemma ChunkKindMoveAccounted(s: Core)
    requires s.st.ChunkKind? && Accounted(s)
    ensures Accounted(Move(s))
  {
    hide Kept, Scan;
    LastChunkLeads(s);
  }

  lemma LastChunkLeads(s: Core)
    requires KeptIn(s, InChunk)
    ensures s.length == 0 ==> KeptIn(s.(flags := s.flags.(trailing := true)), Edge)
  {
    hide Scan, LengthOf;
  }

  lemma TrailersMoveAccounted(s: Core)
    requires s.st.TrailersDone? && Accounted(s) && Framed(s)
    ensures Accounted(Move(s))
  {
    hide Kept, Scan, Framed;
    TrailersAreChunked(s);
    LengthOrChunks(s);
    TrailersLead(s);
  }

  lemma TrailersLead(s: Core)
    requires KeptIn(s, Edge) && !s.flags.contentLength
    ensures KeptIn(Note(s, ChunkComplete), Completing)
  {
    hide Scan, LengthOf;
    ScanNext(s.log, ChunkComplete);
  }

  lemma TrailersAreChunked(s: Core)
    requires Framed(s) && s.st.TrailersDone?
    ensures s.flags.chunked
  {
  }

  lemma CompleteMoveAccounted(s: Core)
    requires (s.st.NoBodyComplete? || s.st.BodyComplete? || s.st.UpgradeComplete?) && Accounted(s)
    ensures Accounted(Move(s))
  {
    hide Kept, Scan;
    MessageIsHeard(s, PartOf(s.st));
    match s.st
    case NoBodyComplete =>
    case BodyComplete =>
    case UpgradeComplete =>
  }

  lemma MessageIsHeard(s: Core, p: Part)
    requires KeptIn(s, p) && (p.Completing? || p.UpgradeCompleting?)
    ensures KeptIn(Note(s, MessageComplete), if p.Completing? then Idle else Leaving)
  {
    hide Scan, LengthOf;
    ScanNext(s.log, MessageComplete);
  }

  lemma IdleLeads(s: Core, t: Core)
    requires KeptIn(s, Idle) && t.log == s.log && t.index == s.index
    ensures KeptIn(t, Idle) && KeptIn(t, Leaving) && (!t.flags.contentLength ==> KeptIn(t, Front))
  {
    hide Scan;
  }

  lemma LastMoveAccounted(s: Core)
    requires (s.st.CheckUpgrade? || s.st.GoUpgrade? || s.st.GoFail?) && Accounted(s)
    ensures Accounted(Move(s))
  {
    hide Scan, Kept;
    if !s.st.GoUpgrade? {
      IdleLeads(s, s);
    }
  }

  lemma AfterMessageAccounted(s: Core)
    requires s.st.AfterMessage? && Accounted(s)
    ensures Accounted(Move(s))
  {
    hide Scan, Kept, ShouldKeepAlive;
    IdleLeads(s, Move(s));
  }

  lemma MoveAccounted(s: Core)
    requires NeedsNoByte(s.st) && Accounted(s) && Framed(s)
    ensures Accounted(Move(s))
  {
    hide Move, Accounted, Framed;
    match s.st
    case OnReset => BeginMoveAccounted(s);
    case OnBegin => BeginMoveAccounted(s);
    case FieldDone => FieldDoneAccounted(s);
    case FieldKnown => FieldKnownAccounted(s);
    case ValueDone => ValueMoveAccounted(s);
    case HeadersDone => HeadersMoveAccounted(s);
    case AfterHeaders => AfterHeadersMoveAccounted(s);
    case ChunkClear => ChunkMoveAccounted(s);
    case OnChunkHeader => ChunkHeaderMoveAccounted(s);
    case ChunkKind => ChunkKindMoveAccounted(s);
    case ChunkDone => ChunkMoveAccounted(s);
    case TrailersDone => TrailersMoveAccounted(s);
    case NoBodyComplete => CompleteMoveAccounted(s);
    case UpgradeComplete => CompleteMoveAccounted(s);
    case BodyComplete => CompleteMoveAccounted(s);
    case CheckUpgrade => LastMoveAccounted(s);
    case GoUpgrade => LastMoveAccounted(s);
    case AfterMessage => AfterMessageAccounted(s);
    case GoFail(_) => LastMoveAccounted(s);
    case _ =>
  }

  lemma {:induction false} SettleAccounted(s: Core)
    requires Accounted(s) && Framed(s)
    ensures Accounted(Settle(s))
    decreases Pending(s.st)
  {
    hide Accounted, Framed, Move;
    if NeedsNoByte(s.st) {
      MovesEnd(s);
      MoveKeepsFramed(s);
      MoveAccounted(s);
      SettleAccounted(Move(s));
    }
  }

  /* ---- one byte, and whole runs -------------------------------------------------------------------------- */

  lemma StartAccounted(g: Grammar, s: Core, b: byte)
    requires s.st.Start? && Accounted(s) && Framed(s)
    ensures Accounted(InStart(g, s, b))
  {
    hide InLine, Settle, Kept, Framed;
    var t := s.(st := if s.seen then OnReset else OnBegin);
    StartIsFramed(s, t);
    SettleAccounted(t);
    BeginSettles(t);
    LineAccounted(g, Settle(t), b);
  }

  lemma StartIsFramed(s: Core, t: Core)
    requires s.st.Start? && Framed(s) && t == s.(st := t.st) && (t.st.OnReset? || t.st.OnBegin?)
    ensures Framed(t)
  {
  }

  lemma NameStepAccounted(g: Grammar, s: Core, b: byte)
    requires Accounted(s)
    requires s.st.FieldWord? || s.st.FieldCo? || s.st.FieldColon? || s.st.FieldGeneral? || s.st.FieldOtherwise?
    ensures Accounted(Step(g, s, b))
  {
    hide InFieldWord, InFieldCo, InFieldColon, InFieldGeneral, InFieldOtherwise, Kept;
    match s.st
    case FieldWord(w) => WordAccounted(s, w, b);
    case FieldCo => ConAccounted(s, b);
    case FieldColon => ColonAccounted(s, b);
    case FieldGeneral => GeneralAccounted(s, b);
    case FieldOtherwise => NamedAccounted(s, b);
  }

  lemma NamedAccounted(s: Core, b: byte)
    requires KeptIn(s, Named)
    ensures Accounted(InFieldOtherwise(s, b))
  {
    hide InFieldOtherwise, Scan, Lower, LengthOf;
    NameEndAccounted(s, b);
  }

  lemma EdgeStepAccounted(g: Grammar, s: Core, b: byte)
    requires Accounted(s) && (s.st.HeadersStart? || s.st.FieldStart? || s.st.Field? || s.st.HeadersLf?)
    ensures Accounted(Step(g, s, b))
  {
    hide InFieldStart, InField, Expect, Kept;
    EdgeLeads(s);
    FailIsAccounted(s, Edge, HPE_UNEXPECTED_SPACE);
    if s.st.HeadersLf? {
      ExpectAccounted(s, Edge, b, LF, if s.flags.trailing then TrailersDone else HeadersDone, HPE_STRICT);
    } else if s.st.Field? {
      LetterAccounted(s, b);
    } else {
      FieldStartAccounted(s, b);
    }
  }

  lemma EdgeLeads(s: Core)
    requires KeptIn(s, Edge)
    ensures s.index == 0 && (!s.flags.trailing ==> KeptIn(s, Headed))
  {
    hide Scan, LengthOf;
  }

  lemma BeforeStepAccounted(g: Grammar, s: Core, b: byte)
    requires Accounted(s) && Framed(s) && (s.st.DiscardWs? || s.st.DiscardWsLf? || s.st.DiscardLws? || s.st.ValueStart?)
    ensures Accounted(Step(g, s, b))
  {
    hide InDiscardWs, InDiscardLws, InValueStart, Expect, Kept, FramedIn;
    NoIndexBefore(s);
    match s.st
    case DiscardWs => DiscardWsAccounted(s, b);
    case DiscardWsLf => ExpectAccounted(s, BeforeValue, b, LF, DiscardLws, HPE_STRICT);
    case DiscardLws => DiscardLwsAccounted(s, b);
    case ValueStart => ValueStartAccounted(s, b);
  }

  lemma TextIsPlain(s: Core)
    requires KeptIn(s, Text) || KeptIn(s, TextWord)
    ensures !s.hs.ContentLength? && (KeptIn(s, Text) ==> s.index == 0)
  {
    hide Scan;
  }

  lemma TextStepAccounted(g: Grammar, s: Core, b: byte)
    requires Accounted(s) && (PartOf(s.st).Text? || PartOf(s.st).TextWord?)
    ensures Accounted(Step(g, s, b))
  {
    hide Step, Kept, Texts;
    TextIsPlain(s);
    StepTexts(g, s, b);
    TextAccounted(s, Step(g, s, b));
  }

  lemma StepTexts(g: Grammar, s: Core, b: byte)
    requires !s.hs.ContentLength? && (PartOf(s.st).TextWord? || (PartOf(s.st).Text? && s.index == 0))
    ensures Texts(s, Step(g, s, b))
  {
    hide InValue, InConn, InConnWord, InConnWs, InConnToken, InTeChunked, InTeLast, InTeToken, InTeOws, Texts;
    match s.st
    case Value => ValueTexts(s, b);
    case ConnToken => ValueTexts(s, b);
    case Conn => ConnTexts(s, b);
    case ConnWs => ConnWsTexts(s, b);
    case ConnWord(w) => ConnWordTexts(s, w, b);
    case TeChunked => TeChunkedTexts(s, b);
    case TeLast => TeLastTexts(s, b);
    case TeToken => TeTokenTexts(s, b);
    case TeOws => TeLastTexts(s, b);
  }

  lemma OverStepAccounted(g: Grammar, s: Core, b: byte)
    requires Accounted(s) && (s.st.ValueEnd? || s.st.ValueLf? || s.st.ValueLws?)
    ensures Accounted(Step(g, s, b))
  {
    hide InValueEnd, InValueLws, Expect, Kept;
    NoIndexOver(s);
    match s.st
    case ValueEnd => EndAccounted(s, b);
    case ValueLf => ExpectAccounted(s, Over, b, LF, ValueLws, HPE_LF_EXPECTED);
    case ValueLws => ValueLwsAccounted(s, b);
  }

  lemma LengthStepAccounted(g: Grammar, s: Core, b: byte)
    requires Accounted(s) && (s.st.Length? || s.st.LengthWs?)
    ensures Accounted(Step(g, s, b))
  {
    hide InLength, InLengthWs, Kept;
    if s.st.Length? {
      DigitsAccounted(s, b);
    } else {
      BlanksAccounted(s, b);
    }
  }

  lemma ChunkStepAccounted(g: Grammar, s: Core, b: byte)
    requires Accounted(s) && (s.st.ChunkDigit? || s.st.ChunkSize? || s.st.ChunkSizeEnd? || s.st.Ext?)
    ensures Accounted(Step(g, s, b))
  {
    hide InExt, ChunkSizeDigit, InChunkSizeEnd, Kept, IsHex;
    ChunksAnySize(s, s.length);
    if s.st.Ext? {
      ExtAccounted(g, s, b);
    } else {
      FailIsAccounted(s, Chunks, HPE_INVALID_CHUNK_SIZE);
      ChunkSizeEndAccounted(s, b);
      if IsHex(b) {
        ChunkSizeAccounted(s, b);
      }
    }
  }

  lemma ChunkEndStepAccounted(g: Grammar, s: Core, b: byte)
    requires Accounted(s) && (s.st.ChunkSizeLf? || s.st.ChunkDataLf?)
    ensures Accounted(Step(g, s, b))
  {
    hide Expect, Kept;
    ChunksAnySize(s, s.length);
    ExpectAccounted(s, Chunks, b, LF, if s.st.ChunkSizeLf? then OnChunkHeader else ChunkDone, HPE_STRICT);
  }

  lemma ChunkDataEndAccounted(g: Grammar, s: Core, b: byte)
    requires Accounted(s) && s.st.ChunkDataCr?
    ensures Accounted(Step(g, s, b))
  {
    hide Expect, Kept;
    ChunksAnySize(s, s.length);
    FailIsAccounted(s, Chunks, HPE_CR_EXPECTED);
    ExpectAccounted(s, Chunks, b, CR, ChunkDataLf, HPE_STRICT);
  }

  lemma BlocksHaveBytes(s: Core)
    requires Framed(s) && (s.st.ChunkStart? || s.st.ChunkData? || s.st.BodyStart? || s.st.Body?)
    ensures s.length > 0
  {
  }

  lemma BodyStepAccounted(g: Grammar, s: Core, b: byte)
    requires Accounted(s) && Framed(s) && (s.st.ChunkStart? || s.st.ChunkData? || s.st.BodyStart? || s.st.Body?)
    ensures Accounted(Step(g, s, b))
  {
    hide InBody, Kept, Framed;
    BlocksHaveBytes(s);
    if s.st.ChunkStart? || s.st.ChunkData? {
      ChunkDataAccounted(s, b);
    } else {
      BlockAccounted(s, b);
    }
  }

  lemma ClosedStepAccounted(g: Grammar, s: Core, b: byte)
    requires Accounted(s) && s.st.Closed?
    ensures Accounted(Step(g, s, b))
  {
    hide Kept;
    IdleHasNoIndex(s);
    FailIsAccounted(s, Idle, HPE_CLOSED_CONNECTION);
  }

  lemma IdleHasNoIndex(s: Core)
    requires KeptIn(s, Idle)
    ensures s.index == 0
  {
  }

  lemma NowhereIsNotAccounted(s: Core)
    requires s.st.EofStart? || s.st.EofBody?
    ensures !Accounted(s)
  {
  }

  /** One byte keeps the account, in every state and under every grammar. */
  lemma StepAccounted(g: Grammar, s: Core, b: byte)
    requires Accounted(s) && Framed(s)
    ensures Accounted(Step(g, s, b))
  {
    hide Step, Kept, Framed, InStart, InLine;
    match s.st
    case Start => FrontStepAccounted(g, s, b);
    case Line => FrontStepAccounted(g, s, b);
    case HeadersStart => EdgeStepAccounted(g, s, b);
    case FieldStart => EdgeStepAccounted(g, s, b);
    case Field => EdgeStepAccounted(g, s, b);
    case HeadersLf => EdgeStepAccounted(g, s, b);
    case FieldWord(_) => NameStepAccounted(g, s, b);
    case FieldCo => NameStepAccounted(g, s, b);
    case FieldColon => NameStepAccounted(g, s, b);
    case FieldGeneral => NameStepAccounted(g, s, b);
    case FieldOtherwise => NameStepAccounted(g, s, b);
    case DiscardWs => BeforeStepAccounted(g, s, b);
    case DiscardWsLf => BeforeStepAccounted(g, s, b);
    case DiscardLws => BeforeStepAccounted(g, s, b);
    case ValueStart => BeforeStepAccounted(g, s, b);
    case Value => TextStepAccounted(g, s, b);
    case Conn => TextStepAccounted(g, s, b);
    case ConnWord(_) => TextStepAccounted(g, s, b);
    case ConnWs => TextStepAccounted(g, s, b);
    case ConnToken => TextStepAccounted(g, s, b);
    case TeChunked => TextStepAccounted(g, s, b);
    case TeLast => TextStepAccounted(g, s, b);
    case TeToken => TextStepAccounted(g, s, b);
    case TeOws => TextStepAccounted(g, s, b);
    case ValueEnd => OverStepAccounted(g, s, b);
    case ValueLf => OverStepAccounted(g, s, b);
    case ValueLws => OverStepAccounted(g, s, b);
    case Length => LengthStepAccounted(g, s, b);
    case LengthWs => LengthStepAccounted(g, s, b);
    case ChunkDigit => ChunkStepAccounted(g, s, b);
    case ChunkSize => ChunkStepAccounted(g, s, b);
    case ChunkSizeEnd => ChunkStepAccounted(g, s, b);
    case Ext => ChunkStepAccounted(g, s, b);
    case ChunkSizeLf => ChunkEndStepAccounted(g, s, b);
    case ChunkDataCr => ChunkDataEndAccounted(g, s, b);
    case ChunkDataLf => ChunkEndStepAccounted(g, s, b);
    case ChunkStart => BodyStepAccounted(g, s, b);
    case ChunkData => BodyStepAccounted(g, s, b);
    case BodyStart => BodyStepAccounted(g, s, b);
    case Body => BodyStepAccounted(g, s, b);
    case Closed => ClosedStepAccounted(g, s, b);
    case EofStart => NowhereIsNotAccounted(s);
    case EofBody => NowhereIsNotAccounted(s);
    case _ => IdleStepDoesNothing(g, s, b);
  }

  lemma FrontStepAccounted(g: Grammar, s: Core, b: byte)
    requires Accounted(s) && Framed(s) && (s.st.Start? || s.st.Line?)
    ensures Accounted(Step(g, s, b))
  {
    hide Kept, Framed, InStart, InLine;
    if s.st.Start? {
      StartAccounted(g, s, b);
    } else {
      LineAccounted(g, s, b);
    }
  }

  lemma {:induction false} FeedAccounted(g: Grammar, s: Core, bytes: seq<byte>)
    requires Accounted(s) && Framed(s)
    ensures Accounted(Feed(g, s, bytes))
    decreases |bytes|
  {
    hide Accounted, Framed, Settle, Step;
    SettleKeepsFramed(s);
    SettleAccounted(s);
    if bytes != [] {
      StepKeepsFramed(g, Settle(s), bytes[0]);
      StepAccounted(g, Settle(s), bytes[0]);
      FeedAccounted(g, Step(g, Settle(s), bytes[0]), bytes[1..]);
    }
  }

  lemma InitiallyAccounted()
    ensures Accounted(INITIAL) && Framed(INITIAL)
  {
  }

  /** The one message that may have another body than announced: a CONNECT, which has none. Nothing more
      is read after it. */
  predicate IsConnect(r: Core, log: seq<Event>, i: nat)
    requires i < |log|
  {
    r.st.Upgraded? && r.connect && i == |log| - 1 && Scan(log[..i]).body == 0
  }

  /** In every run: while a body is read, the bytes delivered and the count still to come add up to the
      numeral of the Content-Length header, or to the sizes of the chunks, that the callbacks were given;
      and every completed message had exactly that body, except for a final CONNECT. */
  lemma BodiesAsAnnounced(g: Grammar, bytes: seq<byte>)
    ensures var r := Feed(g, INITIAL, bytes);
      var a := Scan(r.log);
      && (r.st.BodyStart? || r.st.Body? ==> a.claim.Claim? && a.body + r.length == LengthOf(a.claim.value))
      && (r.st.ChunkStart? || r.st.ChunkData? ==> a.claim.NoClaim? && a.body + r.length == a.chunks)
      && forall i :: 0 <= i < |r.log| && r.log[i].MessageComplete? ==> Paid(Scan(r.log[..i])) || IsConnect(r, r.log, i)
  {
    hide Feed, Scan, Framed, Paid, LengthOf, EndsMessage;
    InitiallyAccounted();
    FeedAccounted(g, INITIAL, bytes);
    var r := Feed(g, INITIAL, bytes);
    FeedEndsSettled(g, INITIAL, bytes);
    AllPaid(r.log);
    NoDebt(r);
    if Scan(r.log).unpaid != 0 {
      OneDebt(r.log);
    }
  }

  lemma NoDebt(s: Core)
    requires Accounted(s)
    ensures var a := Scan(s.log);
      || a.unpaid == 0
      || ((s.st.GoUpgrade? || s.st.Upgraded?) && s.connect && a.body == 0 && a.unpaid == 1 && !Paid(a) && EndsMessage(s.log))
  {
    hide Scan, LengthOf, Paid, EndsMessage;
  }

  /** A debt that the last message has made is the only one. */
  lemma OneDebt(log: seq<Event>)
    requires EndsMessage(log) && Scan(log).unpaid == 1 && !Paid(Scan(log))
    ensures var k := |log| - 1;
      && Scan(log[..k]).body == Scan(log).body
      && forall i :: 0 <= i < k && log[i].MessageComplete? ==> Paid(Scan(log[..i]))
  {
    hide LengthOf, Lower;
    var k := |log| - 1;
    AllPaid(log[..k]);
    forall i | 0 <= i < k
      ensures log[..k][..i] == log[..i] && log[..k][i] == log[i]
    {
    }
  }

  lemma FeedEndsSettled(g: Grammar, s: Core, bytes: seq<byte>)
    ensures !NeedsNoByte(Feed(g, s, bytes).st)
  {
    hide Feed;
    FeedIsSettled(g, s, bytes);
  }

  /** The same of what the callbacks have really seen, however the stream was cut. */
  lemma BodiesSeen(g: Grammar, pieces: seq<seq<byte>>)
    ensures var r, log := Feed(g, INITIAL, Flatten(pieces)), SeenBy(g, INITIAL, pieces);
      forall i :: 0 <= i < |log| && log[i].MessageComplete? ==> Paid(Scan(log[..i])) || IsConnect(r, log, i)
  {
    hide Feed, Scan, Paid, StopAt, Within, NameLength, Flatten;
    var r, log := Feed(g, INITIAL, Flatten(pieces)), SeenBy(g, INITIAL, pieces);
    BodiesAsAnnounced(g, Flatten(pieces));
    assert log == r.log[..|log|];
    forall i | 0 <= i < |log| && log[i].MessageComplete?
      ensures Paid(Scan(log[..i])) || IsConnect(r, log, i)
    {
      assert log[..i] == r.log[..i] && r.log[i].MessageComplete?;
    }
  }
}
