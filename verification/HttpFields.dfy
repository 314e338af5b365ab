/** What a header section means: which sections the parser accepts, and the flags and the length it has
    after one, against a reading of the lines that knows nothing of the parser's states (sections 5, 6.1,
    6.2 and 9.6 of RFC 9112). */
module HttpFields {
  import opened Bytes
  import opened HttpSpec
  import opened HttpBodies
  import opened HttpSteps
  import opened HttpMessages
  import opened HttpHeaders

  /* ---- header names --------------------------------------------------------------------------------- */

  const CONNECTION: seq<byte> := [99, 111, 110, 110, 101, 99, 116, 105, 111, 110]
  const PROXY_CONNECTION: seq<byte> := [112, 114, 111, 120, 121, 45, 99, 111, 110, 110, 101, 99, 116, 105, 111, 110]
  const UPGRADE: seq<byte> := [117, 112, 103, 114, 97, 100, 101]
  const CLOSE: seq<byte> := [99, 108, 111, 115, 101]
  const KEEP_ALIVE: seq<byte> := [107, 101, 101, 112, 45, 97, 108, 105, 118, 101]

  /** The header a name stands for, in either case. */
  function KindOf(name: seq<byte>): HeaderKind {
    if Lower(name) == CONNECTION || Lower(name) == PROXY_CONNECTION then Connection
    else if Lower(name) == CONTENT_LENGTH then ContentLength
    else if Lower(name) == TRANSFER_ENCODING then TransferEncoding
    else if Lower(name) == UPGRADE then Upgrade
    else General
  }

  /** k is one of the known names. */
  predicate IsKnown(k: seq<byte>) {
    k == CONNECTION || k == PROXY_CONNECTION || k == CONTENT_LENGTH || k == TRANSFER_ENCODING || k == UPGRADE
  }

  /** The letters of a name are the beginning of no known name. */
  ghost predicate Off(name: seq<byte>) {
    forall k :: IsKnown(k) ==> !(Lower(name) <= k)
  }

  /** What the state says of the name read so far. */
  ghost predicate Naming(s: Core, name: seq<byte>) {
    match s.st
    case FieldWord(w) => NameWord(w) && s.index < |Letters(w)| && Lower(name) == Opening(w) + Letters(w)[..s.index]
    case FieldCo => s.index == 0 && Lower(name) == [99, 111, 110]
    case FieldColon => s.index == 0 && IsKnown(Lower(name)) && s.hs == KindOf(name)
    case FieldGeneral => s.index == 0 && s.hs.General? && Off(name)
    case _ => false
  }

  /** Known names that begin with the letters of a keyword go on with the rest of it. */
  lemma OpeningIsUnique(w: Word, k: seq<byte>)
    requires NameWord(w) && IsKnown(k) && Opening(w) <= k
    ensures |Opening(w)| + |Letters(w)| <= |k| && k[|Opening(w)|..|Opening(w)| + |Letters(w)|] == Letters(w)
  {
    hide IsKnown, Letters, Opening;
    WordOpens(w);
    KnownOpenings(k);
    assert k[0] == Opening(w)[0];
    if w.Ection? || w.EntLength? {
      assert k[3] == Opening(w)[3];
    }
  }

  lemma WordOpens(w: Word)
    requires NameWord(w)
    ensures w.On? ==> Opening(w) == [99] && Letters(w) == [111, 110]
    ensures w.Ection? ==> Opening(w) == [99, 111, 110, 110] && Letters(w) == [101, 99, 116, 105, 111, 110]
    ensures w.EntLength? ==> Opening(w) == [99, 111, 110, 116] && Letters(w) == [101, 110, 116, 45, 108, 101, 110, 103, 116, 104]
    ensures w.RoxyConnection? ==> Opening(w) == [112] && Letters(w) == [114, 111, 120, 121, 45, 99, 111, 110, 110, 101, 99, 116, 105, 111, 110]
    ensures w.RansferEncoding? ==> Opening(w) == [116] && Letters(w) == [114, 97, 110, 115, 102, 101, 114, 45, 101, 110, 99, 111, 100, 105, 110, 103]
    ensures w.Pgrade? ==> Opening(w) == [117] && Letters(w) == [112, 103, 114, 97, 100, 101]
  {
  }

  lemma KnownOpenings(k: seq<byte>)
    requires IsKnown(k)
    ensures |k| >= 4 && k[0] in {99, 112, 116, 117}
    ensures k[0] == 99 ==> k[1..3] == [111, 110] && k[3] in {110, 116}
    ensures k[0] == 99 && k[3] == 110 ==> |k| == 10 && k[4..10] == [101, 99, 116, 105, 111, 110]
    ensures k[0] == 99 && k[3] == 116 ==> |k| == 14 && k[4..14] == [101, 110, 116, 45, 108, 101, 110, 103, 116, 104]
    ensures k[0] == 112 ==> |k| == 16 && k[1..16] == [114, 111, 120, 121, 45, 99, 111, 110, 110, 101, 99, 116, 105, 111, 110]
    ensures k[0] == 116 ==> |k| == 17 && k[1..17] == [114, 97, 110, 115, 102, 101, 114, 45, 101, 110, 99, 111, 100, 105, 110, 103]
    ensures k[0] == 117 ==> |k| == 7 && k[1..7] == [112, 103, 114, 97, 100, 101]
  {
    if k == CONNECTION {
      assert k == [99] + [111, 110] + [110] + [101, 99, 116, 105, 111, 110];
    } else if k == CONTENT_LENGTH {
      assert k == [99] + [111, 110] + [116] + [101, 110, 116, 45, 108, 101, 110, 103, 116, 104];
    } else if k == PROXY_CONNECTION {
      assert k == [112] + [114, 111, 120, 121, 45, 99, 111, 110, 110, 101, 99, 116, 105, 111, 110];
    } else if k == TRANSFER_ENCODING {
      assert k == [116] + [114, 97, 110, 115, 102, 101, 114, 45, 101, 110, 99, 111, 100, 105, 110, 103];
    } else {
      assert k == [117] + [112, 103, 114, 97, 100, 101];
    }
  }

  /** No known name is the beginning of another. */
  lemma KnownNamesDiffer(j: seq<byte>, k: seq<byte>)
    requires IsKnown(j) && IsKnown(k) && j <= k
    ensures j == k
  {
    assert |j| <= |k|;
    assert j[0] == k[0] && j[3] == k[3];
  }

  /** A letter that does not fit its keyword leaves all known names. */
  lemma WordGoesOff(w: Word, i: nat, name: seq<byte>, b: byte)
    requires NameWord(w) && i < |Letters(w)| && Lower(name) == Opening(w) + Letters(w)[..i] && LowerByte(b) != Letters(w)[i]
    ensures Off(name + [b])
  {
    hide Opening, Letters, Lower, LowerByte, IsKnown;
    LowerNext(name, b);
    var n, l := |Opening(w)|, Lower(name + [b]);
    assert |Lower(name)| == n + i;
    forall k | IsKnown(k)
      ensures !(l <= k)
    {
      if l <= k {
        WordStays(w, i, name, b, k);
      }
    }
  }

  lemma WordStays(w: Word, i: nat, name: seq<byte>, b: byte, k: seq<byte>)
    requires NameWord(w) && i < |Letters(w)| && Lower(name) == Opening(w) + Letters(w)[..i]
    requires IsKnown(k) && Lower(name + [b]) <= k
    ensures LowerByte(b) == Letters(w)[i]
  {
    hide Opening, Letters, Lower, LowerByte, IsKnown;
    LowerNext(name, b);
    var n, l := |Opening(w)|, Lower(name + [b]);
    assert l[n + i] == LowerByte(b);
    assert Opening(w) == l[..n] == k[..n];
    OpeningIsUnique(w, k);
    assert k[n..n + |Letters(w)|][i] == k[n + i];
  }

  lemma StaysOff(name: seq<byte>, b: byte)
    requires Off(name)
    ensures Off(name + [b])
  {
    hide Lower, LowerByte, IsKnown;
    LowerNext(name, b);
    forall k | IsKnown(k)
      ensures !(Lower(name + [b]) <= k)
    {
      assert Lower(name + [b])[..|Lower(name)|] == Lower(name);
    }
  }

  lemma KnownGoesOff(name: seq<byte>, b: byte)
    requires IsKnown(Lower(name))
    ensures Off(name + [b])
  {
    hide Lower, LowerByte, IsKnown;
    LowerNext(name, b);
    forall k | IsKnown(k)
      ensures !(Lower(name + [b]) <= k)
    {
      if Lower(name + [b]) <= k {
        PrefixOfPrefix(Lower(name), LowerByte(b), k);
        KnownNamesDiffer(Lower(name), k);
      }
    }
  }

  lemma PrefixOfPrefix(a: seq<byte>, b: byte, k: seq<byte>)
    requires a + [b] <= k
    ensures a <= k && |a| < |k|
  {
    assert (a + [b])[..|a|] == a;
  }

  /** The header a keyword ends as. */
  function WordKind(w: Word): HeaderKind {
    match w
    case EntLength => ContentLength
    case RansferEncoding => TransferEncoding
    case Pgrade => Upgrade
    case _ => Connection
  }

  /** A keyword to its last letter. */
  lemma WordIsName(w: Word, name: seq<byte>)
    requires NameWord(w) && Lower(name) == Opening(w) + Letters(w)
    ensures w.On? ==> Lower(name) == [99, 111, 110]
    ensures !w.On? ==> IsKnown(Lower(name)) && KindOf(name) == WordKind(w)
  {
    hide Lower, Letters, Opening, KindOf, IsKnown;
    WordOpens(w);
    KnownKinds(name);
    match w
    case On => assert [99] + [111, 110] == [99, 111, 110];
    case Ection => assert Opening(w) + Letters(w) == CONNECTION;
    case EntLength => assert Opening(w) + Letters(w) == CONTENT_LENGTH;
    case RoxyConnection => assert Opening(w) + Letters(w) == PROXY_CONNECTION;
    case RansferEncoding => assert Opening(w) + Letters(w) == TRANSFER_ENCODING;
    case Pgrade => assert Opening(w) + Letters(w) == UPGRADE;
  }

  lemma KnownKinds(name: seq<byte>)
    ensures Lower(name) == CONNECTION || Lower(name) == PROXY_CONNECTION ==> KindOf(name).Connection? && IsKnown(Lower(name))
    ensures Lower(name) == CONTENT_LENGTH ==> KindOf(name).ContentLength? && IsKnown(Lower(name))
    ensures Lower(name) == TRANSFER_ENCODING ==> KindOf(name).TransferEncoding? && IsKnown(Lower(name))
    ensures Lower(name) == UPGRADE ==> KindOf(name).Upgrade? && IsKnown(Lower(name))
  {
    hide Lower;
  }

  lemma PartIsNoName(w: Word, i: nat, name: seq<byte>)
    requires NameWord(w) && i < |Letters(w)| && Lower(name) == Opening(w) + Letters(w)[..i]
    ensures KindOf(name).General?
  {
    hide Opening, Letters, Lower;
    var n := |Opening(w)|;
    assert |Lower(name)| == n + i;
    if IsKnown(Lower(name)) {
      assert Lower(name)[..n] == Opening(w);
      OpeningIsUnique(w, Lower(name));
    }
  }

  lemma OffIsNoName(name: seq<byte>)
    requires Off(name)
    ensures KindOf(name).General?
  {
    hide Lower;
    assert IsKnown(Lower(name)) ==> !(Lower(name) <= Lower(name));
  }

  /* ---- names as the machine reads them ------------------------------------------------------------------ */

  /** One more byte of a name. */
  predicate Names(s: Core, b: byte, r: Core) {
    r == s.(st := r.st, hs := r.hs, index := r.index, log := s.log + [SpanByte(FieldSpan, b)])
  }

  lemma GeneralName(s: Core, name: seq<byte>, b: byte)
    requires IsToken(b) && Off(name + [b]) && s.index == 0 && s.hs.General?
    ensures Names(s, b, InFieldGeneral(s, b)) && Naming(InFieldGeneral(s, b), name + [b])
  {
    hide IsToken, Off;
  }

  lemma WordName(s: Core, w: Word, name: seq<byte>, b: byte)
    requires s.st == FieldWord(w) && Naming(s, name) && IsToken(b)
    ensures Names(s, b, InFieldWord(s, w, b)) && Naming(InFieldWord(s, w, b), name + [b])
  {
    hide IsToken, Off, Letters, Opening, Lower, LowerByte, InFieldGeneral, KindOf, IsKnown, WordField;
    if LowerByte(b) == Letters(w)[s.index] {
      LowerNext(name, b);
      assert Letters(w)[..s.index + 1] == Letters(w)[..s.index] + [Letters(w)[s.index]];
      if s.index + 1 == |Letters(w)| {
        assert Letters(w)[..s.index + 1] == Letters(w);
        WordIsName(w, name + [b]);
        WordEndsName(Into(s.(index := 0), FieldSpan, b, Field), w, name + [b]);
      }
    } else {
      WordGoesOff(w, s.index, name, b);
      GeneralName(s.(index := 0, hs := General), name, b);
    }
  }

  lemma WordEndsName(s: Core, w: Word, name: seq<byte>)
    requires NameWord(w) && s.index == 0
    requires if w.On? then Lower(name) == [99, 111, 110] else IsKnown(Lower(name)) && KindOf(name) == WordKind(w)
    ensures Naming(WordField(s, w), name) && WordField(s, w) == s.(st := WordField(s, w).st, hs := WordField(s, w).hs)
  {
    hide Lower, KindOf, IsKnown;
  }

  lemma ConName(s: Core, name: seq<byte>, b: byte)
    requires s.st.FieldCo? && Naming(s, name) && IsToken(b)
    ensures Names(s, b, InFieldCo(s, b)) && Naming(InFieldCo(s, b), name + [b])
  {
    hide IsToken, Off, Lower, LowerByte, InFieldGeneral;
    LowerNext(name, b);
    var c := LowerByte(b);
    assert Lower(name + [b]) == [99, 111, 110, c];
    if c == 110 || c == 116 {
      WordBegins(if c == 110 then Ection else EntLength, name + [b]);
    } else {
      ConGoesOff(name, b);
      GeneralName(s.(hs := General), name, b);
    }
  }

  lemma WordBegins(w: Word, name: seq<byte>)
    requires NameWord(w)
    ensures Opening(w) + Letters(w)[..0] == Opening(w) && 0 < |Letters(w)|
  {
  }

  lemma ConGoesOff(name: seq<byte>, b: byte)
    requires Lower(name + [b]) == [99, 111, 110, LowerByte(b)] && LowerByte(b) !in {110, 116}
    ensures Off(name + [b])
  {
    hide Lower, LowerByte, IsKnown;
    forall k | IsKnown(k)
      ensures !(Lower(name + [b]) <= k)
    {
      KnownOpenings(k);
      assert Lower(name + [b])[0] == 99 && Lower(name + [b])[3] == LowerByte(b);
    }
  }

  lemma ColonName(s: Core, name: seq<byte>, b: byte)
    requires s.st.FieldColon? && Naming(s, name) && IsToken(b)
    ensures Names(s, b, InFieldColon(s, b)) && Naming(InFieldColon(s, b), name + [b])
  {
    hide IsToken, Off, Lower, InFieldGeneral, KindOf, IsKnown;
    TokenIsNoMark(b);
    KnownGoesOff(name, b);
    GeneralName(s.(hs := General), name, b);
  }

  lemma FirstName(s: Core, b: byte)
    requires IsToken(b) && s.index == 0
    ensures Names(s, b, InField(s, b)) && Naming(InField(s, b), [b])
  {
    hide IsToken, Off, LowerByte, InFieldGeneral;
    var c := LowerByte(b);
    assert Lower([b]) == [c];
    if c in {99, 112, 116, 117} {
      WordBegins(if c == 99 then On else if c == 112 then RoxyConnection else if c == 116 then RansferEncoding else Pgrade, [b]);
    } else {
      FirstGoesOff(b);
      assert [] + [b] == [b];
      GeneralName(s.(hs := General), [], b);
    }
  }

  lemma FirstGoesOff(b: byte)
    requires LowerByte(b) !in {99, 112, 116, 117}
    ensures Off([b])
  {
    hide LowerByte, IsKnown;
    forall k | IsKnown(k)
      ensures !(Lower([b]) <= k)
    {
      KnownOpenings(k);
      assert Lower([b])[0] == LowerByte(b);
    }
  }

  lemma NameStep(g: Grammar, s: Core, name: seq<byte>, b: byte)
    requires Naming(s, name) && IsToken(b)
    ensures Names(s, b, Step(g, s, b)) && Naming(Step(g, s, b), name + [b])
  {
    hide InFieldWord, InFieldCo, InFieldColon, InFieldGeneral, IsToken, Off, Lower, KindOf, IsKnown, Names, Opening, Letters;
    match s.st
    case FieldWord(w) => WordName(s, w, name, b);
    case FieldCo => ConName(s, name, b);
    case FieldColon => ColonName(s, name, b);
    case FieldGeneral =>
      StaysOff(name, b);
      GeneralName(s, name, b);
  }

  lemma NamingNeedsByte(s: Core, name: seq<byte>)
    requires Naming(s, name)
    ensures !NeedsNoByte(s.st) && NameState(s.st)
  {
    hide Off, Lower, KindOf, IsKnown, Opening, Letters;
  }

  /** What the name is when the colon comes. */
  lemma NamedAtColon(g: Grammar, s: Core, name: seq<byte>)
    requires Naming(s, name)
    ensures Step(g, s, COLON) == s.(st := FieldDone, hs := KindOf(name), index := 0)
  {
    hide Off, Lower, KindOf, IsKnown, Opening, Letters;
    match s.st
    case FieldWord(w) =>
      ColonIsNoLetter(w);
      PartIsNoName(w, s.index, name);
    case FieldCo => ConIsNoName(name);
    case FieldColon =>
    case FieldGeneral => OffIsNoName(name);
  }

  lemma ConIsNoName(name: seq<byte>)
    requires Lower(name) == [99, 111, 110]
    ensures KindOf(name).General?
  {
    hide Lower;
  }

  lemma {:induction false} NameReads(g: Grammar, s: Core, name: seq<byte>, more: seq<byte>)
    requires Naming(s, name) && forall i :: 0 <= i < |more| ==> IsToken(more[i])
    ensures var r := Feed(g, s, more);
      Naming(r, name + more) && r == s.(st := r.st, hs := r.hs, index := r.index, log := s.log + Spans(FieldSpan, more))
    decreases |more|
  {
    hide Feed, Step, Settle, Naming, IsToken, Names;
    NamingNeedsByte(s, name);
    if more == [] {
      FeedNothing(g, s);
      SettledAlready(s);
      assert name + more == name && s.log + Spans(FieldSpan, more) == s.log;
    } else {
      var b, t := more[0], Step(g, s, more[0]);
      NameStep(g, s, name, b);
      ByteFirst(g, s, more);
      NameReads(g, t, name + [b], more[1..]);
      assert name + [b] + more[1..] == name + more;
      NamesKeep(s, b, t);
      assert t.log + Spans(FieldSpan, more[1..]) == s.log + Spans(FieldSpan, more);
    }
  }

  lemma NamesKeep(s: Core, b: byte, r: Core)
    requires Names(s, b, r)
    ensures r == s.(st := r.st, hs := r.hs, index := r.index, log := s.log + [SpanByte(FieldSpan, b)])
  {
  }

  /** A whole name and its colon, where a header may begin: the name is told, and then `hs` is what it
      stands for. */
  lemma NameMeans(g: Grammar, s: Core, name: seq<byte>)
    requires AtHeader(s.st) && s.index == 0 && IsName(name)
    ensures Feed(g, s, name + [COLON]) == Settle(s.(st := FieldDone, hs := KindOf(name), log := s.log + Spans(FieldSpan, name)))
  {
    hide Feed, Step, Settle, Naming, IsToken, Names, InField;
    var b, more := name[0], name[1..];
    FirstStep(g, s, b);
    FirstName(s, b);
    var t := InField(s, b);
    NamesKeep(s, b, t);
    ByteFirst(g, s, name);
    assert name == [b] + more;
    NameReads(g, t, [b], more);
    var u := Feed(g, t, more);
    FeedConcat(g, s, name, [COLON]);
    NamingNeedsByte(u, name);
    FeedByte(g, u, COLON);
    SettledAlready(u);
    NamedAtColon(g, u, name);
    assert t.log + Spans(FieldSpan, more) == s.log + Spans(FieldSpan, name);
  }

  lemma FirstStep(g: Grammar, s: Core, b: byte)
    requires AtHeader(s.st) && IsToken(b)
    ensures Step(g, s, b) == InField(s, b) && !NeedsNoByte(s.st)
  {
    hide InField, IsToken;
    TokenIsNoMark(b);
  }

  /* ---- lists ------------------------------------------------------------------------------------------------ */

  /** An element of a list without the blanks before it. */
  function TrimLeft(e: seq<byte>): (t: seq<byte>)
    ensures |t| <= |e| && (t != [] ==> !IsBlank(t[0]))
  {
    if e != [] && IsBlank(e[0]) then TrimLeft(e[1..]) else e
  }

  /** The element is this word, in either case, with blanks before it and spaces after it. */
  predicate Says(e: seq<byte>, word: seq<byte>) {
    var t := TrimLeft(e);
    |word| <= |t| && Lower(t[..|word|]) == word && AllSpaces(t[|word|..])
  }

  /** The elements of a list, between its commas. */
  function Elements(v: seq<byte>): seq<seq<byte>> {
    ElementsFrom([], v)
  }

  function ElementsFrom(cur: seq<byte>, v: seq<byte>): seq<seq<byte>>
    decreases |v|
  {
    if v == [] then [cur]
    else if v[0] == COMMA then [cur] + ElementsFrom([], v[1..])
    else ElementsFrom(cur + [v[0]], v[1..])
  }

  /** The list has such an element. */
  predicate Lists(v: seq<byte>, word: seq<byte>) {
    SomeSays(Elements(v), word)
  }

  predicate SomeSays(es: seq<seq<byte>>, word: seq<byte>) {
    exists i :: 0 <= i < |es| && Says(es[i], word)
  }

  lemma {:induction false} TrimNext(e: seq<byte>, b: byte)
    ensures TrimLeft(e + [b]) == if TrimLeft(e) == [] && IsBlank(b) then [] else TrimLeft(e) + [b]
    decreases |e|
  {
    if e == [] {
      assert e + [b] == [b] && [b][1..] == [];
    } else {
      assert (e + [b])[0] == e[0] && (e + [b])[1..] == e[1..] + [b];
      if IsBlank(e[0]) {
        TrimNext(e[1..], b);
      }
    }
  }

  /** t cannot become the word with spaces after it, whatever is appended. */
  ghost predicate Spoilt(t: seq<byte>, word: seq<byte>) {
    exists p :: 0 <= p < |t| && if p < |word| then LowerByte(t[p]) != word[p] else t[p] != SP
  }

  lemma SpoiltStays(t: seq<byte>, b: byte, word: seq<byte>)
    requires Spoilt(t, word)
    ensures Spoilt(t + [b], word)
  {
    var p :| 0 <= p < |t| && if p < |word| then LowerByte(t[p]) != word[p] else t[p] != SP;
    assert (t + [b])[p] == t[p];
  }

  lemma SpoiltSaysNothing(e: seq<byte>, word: seq<byte>)
    requires Spoilt(TrimLeft(e), word)
    ensures !Says(e, word)
  {
    var t := TrimLeft(e);
    var p :| 0 <= p < |t| && if p < |word| then LowerByte(t[p]) != word[p] else t[p] != SP;
    if |word| <= |t| {
      if p < |word| {
        assert Lower(t[..|word|])[p] == LowerByte(t[p]);
      } else {
        assert t[|word|..][p - |word|] == t[p];
      }
    }
  }

  lemma SpoiltHere(t: seq<byte>, b: byte, word: seq<byte>)
    requires if |t| < |word| then LowerByte(b) != word[|t|] else b != SP
    ensures Spoilt(t + [b], word)
  {
    assert (t + [b])[|t|] == b;
  }

  /* ---- Connection ---------------------------------------------------------------------------------------------- */

  /** The option a match state is reading. */
  function OptionOf(w: Word): seq<byte> {
    match w case Lose => CLOSE case EepAlive => KEEP_ALIVE case _ => UPGRADE
  }

  predicate OptionWord(w: Word) {
    w.Lose? || w.EepAlive? || w.Pgrade?
  }

  /** The options that an element of the list sets. */
  function Said(f: Flags, e: seq<byte>): Flags {
    f.(close := f.close || Says(e, CLOSE), keepAlive := f.keepAlive || Says(e, KEEP_ALIVE),
       connUpgrade := f.connUpgrade || Says(e, UPGRADE))
  }

  /** The options that a list sets. */
  ghost function Listed(f: Flags, v: seq<byte>): Flags {
    f.(close := f.close || Lists(v, CLOSE), keepAlive := f.keepAlive || Lists(v, KEEP_ALIVE),
       connUpgrade := f.connUpgrade || Lists(v, UPGRADE))
  }

  function SaidFrom(f: Flags, cur: seq<byte>, v: seq<byte>): Flags
    decreases |v|
  {
    if v == [] then Said(f, cur)
    else if v[0] == COMMA then SaidFrom(Said(f, cur), [], v[1..])
    else SaidFrom(f, cur + [v[0]], v[1..])
  }

  lemma SomeSaysFirst(e: seq<byte>, es: seq<seq<byte>>, word: seq<byte>)
    ensures SomeSays([e] + es, word) <==> Says(e, word) || SomeSays(es, word)
  {
    hide Says;
    var all := [e] + es;
    if Says(e, word) {
      assert all[0] == e;
    }
    if SomeSays(es, word) {
      var i :| 0 <= i < |es| && Says(es[i], word);
      assert all[i + 1] == es[i];
    }
  }

  lemma SomeSaysOne(e: seq<byte>, word: seq<byte>)
    ensures SomeSays([e], word) <==> Says(e, word)
  {
    hide Says;
    assert [e][0] == e;
  }

  /** The options that the elements of a list set. */
  function SaidBy(f: Flags, es: seq<seq<byte>>): Flags {
    f.(close := f.close || SomeSays(es, CLOSE), keepAlive := f.keepAlive || SomeSays(es, KEEP_ALIVE),
       connUpgrade := f.connUpgrade || SomeSays(es, UPGRADE))
  }

  lemma SaidByFirst(f: Flags, e: seq<byte>, es: seq<seq<byte>>)
    ensures SaidBy(f, [e] + es) == SaidBy(Said(f, e), es)
  {
    hide Says, SomeSays;
    SomeSaysFirst(e, es, CLOSE);
    SomeSaysFirst(e, es, KEEP_ALIVE);
    SomeSaysFirst(e, es, UPGRADE);
  }

  lemma SaidByOne(f: Flags, e: seq<byte>)
    ensures SaidBy(f, [e]) == Said(f, e)
  {
    hide Says, SomeSays;
    SomeSaysOne(e, CLOSE);
    SomeSaysOne(e, KEEP_ALIVE);
    SomeSaysOne(e, UPGRADE);
  }

  lemma {:induction false} SaidIsListed(f: Flags, cur: seq<byte>, v: seq<byte>)
    ensures SaidFrom(f, cur, v) == SaidBy(f, ElementsFrom(cur, v))
    decreases |v|
  {
    hide SaidBy, Said;
    if v == [] {
      SaidByOne(f, cur);
    } else if v[0] == COMMA {
      SaidIsListed(Said(f, cur), [], v[1..]);
      SaidByFirst(f, cur, ElementsFrom([], v[1..]));
    } else {
      SaidIsListed(f, cur + [v[0]], v[1..]);
    }
  }

  predicate Quiet(hs: HeaderKind) {
    hs.Connection? || hs.General?
  }

  ghost predicate AllSpoilt(t: seq<byte>) {
    Spoilt(t, CLOSE) && Spoilt(t, KEEP_ALIVE) && Spoilt(t, UPGRADE)
  }

  /** What the state says of the element read so far. */
  ghost predicate Listing(s: Core, cur: seq<byte>) {
    var t := TrimLeft(cur);
    match s.st
    case Conn => s.index == 0 && Quiet(s.hs) && t == []
    case ConnWord(w) => OptionWord(w) && s.index < |Letters(w)| && Quiet(s.hs) && Lower(t) == OptionOf(w)[..1 + s.index]
    case ConnWs =>
      && s.index == 0
      && ((s.hs.TokenClose? && Says(cur, CLOSE)) || (s.hs.TokenKeepAlive? && Says(cur, KEEP_ALIVE)) || (s.hs.TokenUpgrade? && Says(cur, UPGRADE)))
    case ConnToken => s.index == 0 && Quiet(s.hs) && AllSpoilt(t)
    case _ => false
  }

  lemma OptionLetters(w: Word)
    requires OptionWord(w)
    ensures |OptionOf(w)| == 1 + |Letters(w)| && OptionOf(w)[1..] == Letters(w)
    ensures OptionOf(w)[0] == if w.Lose? then 99 else if w.EepAlive? then 107 else 117
  {
    match w
    case Lose => assert CLOSE == [99] + [108, 111, 115, 101];
    case EepAlive => assert KEEP_ALIVE == [107] + [101, 101, 112, 45, 97, 108, 105, 118, 101];
    case Pgrade => assert UPGRADE == [117] + [112, 103, 114, 97, 100, 101];
  }

  lemma OptionsBegin()
    ensures CLOSE != [] && CLOSE[0] == 99 && KEEP_ALIVE != [] && KEEP_ALIVE[0] == 107 && UPGRADE != [] && UPGRADE[0] == 117
  {
  }

  lemma BlankSaysNothing(e: seq<byte>)
    requires TrimLeft(e) == []
    ensures forall f: Flags :: Said(f, e) == f
  {
    OptionsBegin();
  }

  /** An element beginning like an option says no other. */
  lemma SaysByFirst(e: seq<byte>, word: seq<byte>)
    requires TrimLeft(e) != [] && word != [] && LowerByte(TrimLeft(e)[0]) != word[0]
    ensures !Says(e, word) && Spoilt(TrimLeft(e), word)
  {
    SpoiltSaysNothing(e, word);
  }

  lemma SaysBegins(e: seq<byte>, word: seq<byte>)
    requires Says(e, word) && word != []
    ensures TrimLeft(e) != [] && LowerByte(TrimLeft(e)[0]) == word[0]
  {
    assert Lower(TrimLeft(e)[..|word|])[0] == word[0];
  }

  /** Part of an option says nothing. */
  lemma PartSaysNothing(e: seq<byte>, w: Word, n: nat)
    requires OptionWord(w) && n < |Letters(w)| && Lower(TrimLeft(e)) == OptionOf(w)[..1 + n]
    ensures TrimLeft(e) != [] && LowerByte(TrimLeft(e)[0]) == OptionOf(w)[0] && forall f: Flags :: Said(f, e) == f
  {
    hide Letters, OptionOf;
    OptionLetters(w);
    OptionsBegin();
    var t := TrimLeft(e);
    assert |t| == 1 + n && Lower(t)[0] == LowerByte(t[0]) == OptionOf(w)[0];
    PartIsShort(w);
    if !w.Lose? {
      SaysByFirst(e, CLOSE);
    }
    if !w.EepAlive? {
      SaysByFirst(e, KEEP_ALIVE);
    }
    if !w.Pgrade? {
      SaysByFirst(e, UPGRADE);
    }
  }

  lemma PartIsShort(w: Word)
    requires OptionWord(w)
    ensures (w.Lose? ==> OptionOf(w) == CLOSE) && (w.EepAlive? ==> OptionOf(w) == KEEP_ALIVE) && (w.Pgrade? ==> OptionOf(w) == UPGRADE)
  {
  }

  /** One more byte of a list: a comma ends the element, whose options are set. */
  ghost predicate Goes(s: Core, cur: seq<byte>, b: byte, r: Core) {
    && r == s.(st := r.st, hs := r.hs, index := r.index, flags := r.flags, log := s.log + [SpanByte(ValueSpan, b)])
    && if b == COMMA then Listing(r, []) && r.flags == Said(s.flags, cur) else Listing(r, cur + [b]) && r.flags == s.flags
  }

  lemma CommaGoes(s: Core, cur: seq<byte>, r: Core)
    requires r == Into(s.(index := 0, hs := r.hs, flags := r.flags), ValueSpan, COMMA, Conn) && Quiet(r.hs) && r.flags == Said(s.flags, cur)
    ensures Goes(s, cur, COMMA, r)
  {
    hide Said;
  }

  lemma TokenGoes(s: Core, cur: seq<byte>, b: byte, r: Core)
    requires b != COMMA && r == Into(s.(index := 0, hs := r.hs), ValueSpan, b, ConnToken) && Quiet(r.hs) && AllSpoilt(TrimLeft(cur + [b]))
    ensures Goes(s, cur, b, r)
  {
    hide AllSpoilt, TrimLeft;
  }

  lemma SpoiltByFirst(e: seq<byte>, b: byte)
    requires TrimLeft(e) == [] && !IsBlank(b) && LowerByte(b) !in {99, 107, 117}
    ensures AllSpoilt(TrimLeft(e + [b]))
  {
    hide LowerByte;
    TrimNext(e, b);
    OptionsBegin();
    SpoiltHere([], b, CLOSE);
    SpoiltHere([], b, KEEP_ALIVE);
    SpoiltHere([], b, UPGRADE);
  }

  lemma ConnGoes(s: Core, cur: seq<byte>, b: byte)
    requires s.st.Conn? && Listing(s, cur) && IsFieldValue(b)
    ensures Goes(s, cur, b, InConn(s, b))
  {
    hide LowerByte, Said, AllSpoilt, TrimLeft, Letters;
    TrimNext(cur, b);
    var c, r := LowerByte(b), InConn(s, b);
    if b == COMMA {
      BlankSaysNothing(cur);
      CommaIsItself();
      CommaGoes(s, cur, r);
    } else if IsBlank(b) {
    } else if c in {99, 107, 117} {
      OptionGoes(s, cur, b, if c == 99 then Lose else if c == 107 then EepAlive else Pgrade);
    } else {
      SpoiltByFirst(cur, b);
      TokenGoes(s, cur, b, r);
    }
  }

  lemma CommaIsItself()
    ensures LowerByte(COMMA) == COMMA
  {
  }

  lemma OptionGoes(s: Core, cur: seq<byte>, b: byte, w: Word)
    requires s.st.Conn? && Listing(s, cur) && !IsBlank(b) && OptionWord(w) && LowerByte(b) == OptionOf(w)[0] && b != COMMA
    ensures Goes(s, cur, b, Into(s, ValueSpan, b, ConnWord(w)))
  {
    hide LowerByte, Said, AllSpoilt, TrimLeft, Letters, OptionOf;
    TrimNext(cur, b);
    OptionLetters(w);
    assert Lower([b]) == [LowerByte(b)] && OptionOf(w)[..1] == [OptionOf(w)[0]];
    WordHasLetters(w);
  }

  lemma WordHasLetters(w: Word)
    ensures 0 < |Letters(w)|
  {
  }

  /** A byte that does not go on with an option begun. */
  lemma OptionIsSpoilt(e: seq<byte>, b: byte, w: Word, n: nat)
    requires OptionWord(w) && n < |Letters(w)| && Lower(TrimLeft(e)) == OptionOf(w)[..1 + n] && LowerByte(b) != Letters(w)[n]
    ensures AllSpoilt(TrimLeft(e + [b]))
  {
    hide Letters, OptionOf, LowerByte, Lower;
    PartSaysNothing(e, w, n);
    OptionLetters(w);
    OptionsBegin();
    PartIsShort(w);
    TrimNext(e, b);
    var t := TrimLeft(e);
    assert |Lower(t)| == 1 + n && OptionOf(w)[1..][n] == OptionOf(w)[1 + n];
    SpoiltHere(t, b, OptionOf(w));
    OthersAreSpoilt(t + [b], w);
  }

  /** What begins like one option becomes no other. */
  lemma OthersAreSpoilt(t: seq<byte>, w: Word)
    requires t != [] && OptionWord(w) && LowerByte(t[0]) == OptionOf(w)[0] && Spoilt(t, OptionOf(w))
    ensures AllSpoilt(t)
  {
    OptionsBegin();
    OptionLetters(w);
    PartIsShort(w);
    assert !w.Lose? ==> LowerByte(t[0]) != CLOSE[0];
    assert !w.EepAlive? ==> LowerByte(t[0]) != KEEP_ALIVE[0];
    assert !w.Pgrade? ==> LowerByte(t[0]) != UPGRADE[0];
  }

  lemma ConnWordGoes(s: Core, w: Word, cur: seq<byte>, b: byte)
    requires s.st == ConnWord(w) && Listing(s, cur) && IsFieldValue(b)
    ensures Goes(s, cur, b, InConnWord(s, w, b))
  {
    hide LowerByte, Said, AllSpoilt, TrimLeft, Letters, OptionOf, Lower;
    var r := InConnWord(s, w, b);
    PartSaysNothing(cur, w, s.index);
    CommaIsNoLetter(w);
    if b == COMMA {
      CommaGoes(s, cur, r);
    } else if LowerByte(b) == Letters(w)[s.index] {
      OptionGrows(s, w, cur, b);
    } else {
      OptionIsSpoilt(cur, b, w, s.index);
      TokenGoes(s, cur, b, r);
    }
  }

  lemma CommaIsNoLetter(w: Word)
    ensures forall i :: 0 <= i < |Letters(w)| ==> Letters(w)[i] != LowerByte(COMMA)
  {
  }

  lemma OptionGrows(s: Core, w: Word, cur: seq<byte>, b: byte)
    requires s.st == ConnWord(w) && Listing(s, cur) && LowerByte(b) == Letters(w)[s.index] && b != COMMA
    ensures Goes(s, cur, b, InConnWord(s, w, b))
  {
    hide LowerByte, Said, AllSpoilt, TrimLeft, Letters, OptionOf;
    var n, t := s.index, TrimLeft(cur);
    TrimNext(cur, b);
    OptionLetters(w);
    PartSaysNothing(cur, w, n);
    LowerNext(t, b);
    assert OptionOf(w)[1..][n] == OptionOf(w)[1 + n];
    assert OptionOf(w)[..2 + n] == OptionOf(w)[..1 + n] + [OptionOf(w)[1 + n]];
    if n + 1 == |Letters(w)| {
      assert OptionOf(w)[..2 + n] == OptionOf(w);
      OptionIsSaid(cur + [b], w);
    }
  }

  lemma OptionIsSaid(e: seq<byte>, w: Word)
    requires OptionWord(w) && Lower(TrimLeft(e)) == OptionOf(w)
    ensures Says(e, OptionOf(w)) && OptionOf(w) == (if WordToken(w).TokenClose? then CLOSE else if WordToken(w).TokenKeepAlive? then KEEP_ALIVE else UPGRADE)
    ensures WordToken(w).TokenClose? || WordToken(w).TokenKeepAlive? || WordToken(w).TokenUpgrade?
  {
    var t := TrimLeft(e);
    assert t[..|OptionOf(w)|] == t;
  }

  lemma ConnTokenGoes(s: Core, cur: seq<byte>, b: byte)
    requires s.st.ConnToken? && Listing(s, cur) && IsFieldValue(b)
    ensures Goes(s, cur, b, InConnToken(s, b))
  {
    hide Said, TrimLeft;
    var t := TrimLeft(cur);
    TrimNext(cur, b);
    if b == COMMA {
      AllSpoiltSays(cur);
      CommaGoes(s, cur, InConnToken(s, b));
    } else {
      SpoiltNotEmpty(t, CLOSE);
      SpoiltStays(t, b, CLOSE);
      SpoiltStays(t, b, KEEP_ALIVE);
      SpoiltStays(t, b, UPGRADE);
      TokenGoes(s, cur, b, InConnToken(s, b));
    }
  }

  lemma SpoiltNotEmpty(t: seq<byte>, word: seq<byte>)
    requires Spoilt(t, word)
    ensures t != []
  {
  }

  lemma AllSpoiltSays(e: seq<byte>)
    requires AllSpoilt(TrimLeft(e))
    ensures forall f: Flags :: Said(f, e) == f
  {
    hide Says;
    SpoiltSaysNothing(e, CLOSE);
    SpoiltSaysNothing(e, KEEP_ALIVE);
    SpoiltSaysNothing(e, UPGRADE);
  }

  /** The one option a complete element says. */
  lemma OneOption(s: Core, cur: seq<byte>)
    requires s.st.ConnWs? && Listing(s, cur)
    ensures Said(s.flags, cur) == ApplyToken(s).flags
    ensures ApplyToken(s) == s.(flags := ApplyToken(s).flags, hs := Connection)
  {
    hide Says, TrimLeft, LowerByte;
    OptionsBegin();
    if s.hs.TokenClose? {
      SaysBegins(cur, CLOSE);
    } else if s.hs.TokenKeepAlive? {
      SaysBegins(cur, KEEP_ALIVE);
    } else {
      SaysBegins(cur, UPGRADE);
    }
    if s.hs.TokenClose? {
      SaysByFirst(cur, KEEP_ALIVE);
      SaysByFirst(cur, UPGRADE);
    } else if s.hs.TokenKeepAlive? {
      SaysByFirst(cur, CLOSE);
      SaysByFirst(cur, UPGRADE);
    } else {
      SaysByFirst(cur, CLOSE);
      SaysByFirst(cur, KEEP_ALIVE);
    }
  }

  lemma SpaceSays(e: seq<byte>, word: seq<byte>)
    requires Says(e, word) && word != []
    ensures Says(e + [SP], word)
  {
    var t := TrimLeft(e);
    SaysBegins(e, word);
    TrimNext(e, SP);
    assert (t + [SP])[..|word|] == t[..|word|] && (t + [SP])[|word|..] == t[|word|..] + [SP];
  }

  lemma OptionSpoils(e: seq<byte>, b: byte, word: seq<byte>)
    requires Says(e, word) && word != [] && b != SP
    ensures Spoilt(TrimLeft(e + [b]), word) && TrimLeft(e + [b]) != [] && LowerByte(TrimLeft(e + [b])[0]) == word[0]
  {
    var t := TrimLeft(e);
    SaysBegins(e, word);
    TrimNext(e, b);
    SpoiltHere(t, b, word);
    assert (t + [b])[0] == t[0];
  }

  lemma ConnWsGoes(s: Core, cur: seq<byte>, b: byte)
    requires s.st.ConnWs? && Listing(s, cur) && IsFieldValue(b)
    ensures Goes(s, cur, b, InConnWs(s, b))
  {
    hide Says, Said, TrimLeft, AllSpoilt, ApplyToken;
    TextIsNoMark(b);
    OptionsBegin();
    var word := if s.hs.TokenClose? then CLOSE else if s.hs.TokenKeepAlive? then KEEP_ALIVE else UPGRADE;
    if b == COMMA {
      OneOption(s, cur);
      CommaGoes(s, cur, InConnWs(s, b));
    } else if b == SP {
      SpaceSays(cur, word);
    } else {
      OptionSpoils(cur, b, word);
      var w := if s.hs.TokenClose? then Lose else if s.hs.TokenKeepAlive? then EepAlive else Pgrade;
      PartIsShort(w);
      OthersAreSpoilt(TrimLeft(cur + [b]), w);
      TokenGoes(s, cur, b, InConnWs(s, b));
    }
  }

  lemma ListStep(g: Grammar, s: Core, cur: seq<byte>, b: byte)
    requires Listing(s, cur) && IsFieldValue(b)
    ensures Goes(s, cur, b, Step(g, s, b)) && !NeedsNoByte(s.st)
  {
    hide Goes, InConn, InConnWord, InConnWs, InConnToken, Says, Said, TrimLeft, AllSpoilt, Letters, OptionOf, Lower, IsFieldValue;
    match s.st
    case Conn => ConnGoes(s, cur, b);
    case ConnWord(w) => ConnWordGoes(s, w, cur, b);
    case ConnWs => ConnWsGoes(s, cur, b);
    case ConnToken => ConnTokenGoes(s, cur, b);
  }

  /** The end of a list: its last element counts. */
  lemma ListEnds(g: Grammar, s: Core, cur: seq<byte>)
    requires Listing(s, cur)
    ensures var r := Step(g, s, CR);
      && r == s.(st := ValueLf, hs := r.hs, index := 0)
      && ApplyToken(r) == r.(flags := Said(s.flags, cur), hs := ApplyToken(r).hs)
    ensures !NeedsNoByte(s.st)
  {
    hide Says, Said, TrimLeft, AllSpoilt, Letters, OptionOf, Lower;
    match s.st
    case Conn => BlankSaysNothing(cur);
    case ConnWord(w) =>
      CrIsNoLetter(w);
      PartSaysNothing(cur, w, s.index);
    case ConnWs => OneOption(s, cur);
    case ConnToken => AllSpoiltSays(cur);
  }

  lemma {:induction false} ListReads(g: Grammar, s: Core, cur: seq<byte>, v: seq<byte>)
    requires Listing(s, cur) && IsText(v)
    ensures var r := Feed(g, s, v + CRLF);
      && r.st.ValueLws?
      && ApplyToken(r) == s.(st := ValueLws, hs := ApplyToken(r).hs, index := 0, flags := SaidFrom(s.flags, cur, v),
                             log := s.log + Spans(ValueSpan, v))
    decreases |v|
  {
    hide Feed, Step, Settle, Listing, Goes, IsFieldValue, Said, ApplyToken;
    if v == [] {
      assert v + CRLF == CRLF && s.log + Spans(ValueSpan, v) == s.log;
      ListEnds(g, s, cur);
      LineFeedAfter(g, s);
    } else {
      var b, t := v[0], Step(g, s, v[0]);
      assert (v + CRLF)[1..] == v[1..] + CRLF;
      ListStep(g, s, cur, b);
      ByteFirst(g, s, v + CRLF);
      GoesOn(s, cur, b, t);
      ListReads(g, t, if b == COMMA then [] else cur + [b], v[1..]);
      assert t.log + Spans(ValueSpan, v[1..]) == s.log + Spans(ValueSpan, v);
    }
  }

  lemma GoesOn(s: Core, cur: seq<byte>, b: byte, r: Core)
    requires Goes(s, cur, b, r)
    ensures r == s.(st := r.st, hs := r.hs, index := r.index, flags := r.flags, log := s.log + [SpanByte(ValueSpan, b)])
    ensures if b == COMMA then Listing(r, []) && r.flags == Said(s.flags, cur) else Listing(r, cur + [b]) && r.flags == s.flags
  {
  }

  /** The line feed after a carriage return that ended a value. */
  lemma LineFeedAfter(g: Grammar, s: Core)
    requires !NeedsNoByte(s.st) && Step(g, s, CR).st.ValueLf?
    ensures Feed(g, s, CRLF) == Step(g, s, CR).(st := ValueLws)
    ensures ApplyToken(Step(g, s, CR).(st := ValueLws)) == ApplyToken(Step(g, s, CR)).(st := ValueLws)
  {
    hide Feed, Settle, Step;
    FeedTwo(g, s, CR, LF);
    SettledAlready(s);
    var t := Step(g, s, CR);
    SettledAlready(t);
    LineFeeds(g, t);
    SettledAlready(t.(st := ValueLws));
  }

  /* ---- Transfer-Encoding ------------------------------------------------------------------------------------------ */

  /** A list of codings: `chunked` may only be its last element. */
  datatype Codings = BadCodings | Codings(chunked: bool)

  function CodingsFrom(cur: seq<byte>, v: seq<byte>): Codings
    decreases |v|
  {
    if v == [] then Codings(Says(cur, CHUNKED))
    else if v[0] == COMMA then if Says(cur, CHUNKED) then BadCodings else CodingsFrom([], v[1..])
    else CodingsFrom(cur + [v[0]], v[1..])
  }

  lemma {:induction false} ElementsExist(cur: seq<byte>, v: seq<byte>)
    ensures ElementsFrom(cur, v) != []
    decreases |v|
  {
    if v != [] && v[0] != COMMA {
      ElementsExist(cur + [v[0]], v[1..]);
    }
  }

  /** The codings of a list are read off its elements. */
  lemma {:induction false} CodingsAreElements(cur: seq<byte>, v: seq<byte>)
    ensures var es := ElementsFrom(cur, v);
      && es != []
      && CodingsFrom(cur, v) == if SomeSays(es[..|es| - 1], CHUNKED) then BadCodings else Codings(Says(es[|es| - 1], CHUNKED))
    decreases |v|
  {
    hide Says;
    ElementsExist(cur, v);
    var es := ElementsFrom(cur, v);
    if v == [] {
    } else if v[0] == COMMA {
      var rest := ElementsFrom([], v[1..]);
      CodingsAreElements([], v[1..]);
      SomeSaysFirst(cur, rest[..|rest| - 1], CHUNKED);
      assert es[..|es| - 1] == [cur] + rest[..|rest| - 1];
    } else {
      CodingsAreElements(cur + [v[0]], v[1..]);
    }
  }

  /** What the state says of the coding read so far. */
  ghost predicate Coding(s: Core, cur: seq<byte>) {
    var t := TrimLeft(cur);
    && s.hs.TransferEncoding?
    && match s.st
       case TeOws => s.index == 0 && t == []
       case TeChunked => 0 < s.index < |CHUNKED| && Lower(t) == CHUNKED[..s.index]
       case TeLast => s.index == 0 && Says(cur, CHUNKED)
       case TeToken => s.index == 0 && Spoilt(t, CHUNKED)
       case _ => false
  }

  /** One more byte of a list of codings; nothing but spaces may follow `chunked` in it. */
  ghost predicate Codes(s: Core, cur: seq<byte>, b: byte, r: Core) {
    if b == COMMA && Says(cur, CHUNKED) then r.st == Failed(HPE_INVALID_TRANSFER_ENCODING)
    else r == s.(st := r.st, index := r.index, log := s.log + [SpanByte(ValueSpan, b)]) && Coding(r, if b == COMMA then [] else cur + [b])
  }

  lemma BitFiveFolds(b: byte, c: byte)
    requires 97 <= c <= 122
    ensures OrBit5(b) == c <==> LowerByte(b) == c
  {
  }

  lemma ChunkedLetters()
    ensures Letters(Chunked) == CHUNKED && forall i :: 0 <= i < |CHUNKED| ==> 97 <= CHUNKED[i] <= 122
  {
  }

  /** Part of the word says nothing. */
  lemma PartOfChunked(e: seq<byte>, n: nat)
    requires n < |CHUNKED| && Lower(TrimLeft(e)) == CHUNKED[..n]
    ensures !Says(e, CHUNKED)
  {
  }

  lemma OrdinaryCodes(s: Core, cur: seq<byte>, b: byte)
    requires s.hs.TransferEncoding? && s.index == 0 && IsFieldValue(b) && !Says(cur, CHUNKED)
    requires b != COMMA ==> Spoilt(TrimLeft(cur + [b]), CHUNKED)
    ensures Codes(s, cur, b, InTeToken(s, b))
  {
    hide Says, Spoilt;
  }

  /** The word's next letter, or another byte. */
  lemma WordCodes(s: Core, cur: seq<byte>, b: byte)
    requires s.hs.TransferEncoding? && s.index < |CHUNKED| && Lower(TrimLeft(cur)) == CHUNKED[..s.index] && IsFieldValue(b)
    requires s.index == 0 ==> !IsBlank(b)
    ensures Codes(s, cur, b, InTeChunked(s, b))
  {
    hide Says, Spoilt, LowerByte, OrBit5, TrimLeft, Letters, IsFieldValue, Lower, InTeToken;
    ChunkedLetters();
    PartOfChunked(cur, s.index);
    var t := TrimLeft(cur);
    assert |Lower(t)| == s.index;
    TrimNext(cur, b);
    BitFiveFolds(b, CHUNKED[s.index]);
    LowerNext(t, b);
    if OrBit5(b) == CHUNKED[s.index] {
      assert CHUNKED[..s.index + 1] == CHUNKED[..s.index] + [CHUNKED[s.index]];
      CommaIsItself();
      if s.index + 1 == |CHUNKED| {
        assert CHUNKED[..s.index + 1] == CHUNKED;
        ChunkedIsSaid(cur + [b]);
      }
    } else {
      SpoiltHere(t, b, CHUNKED);
      OrdinaryCodes(s.(index := 0), cur, b);
    }
  }

  lemma ChunkedIsSaid(e: seq<byte>)
    requires Lower(TrimLeft(e)) == CHUNKED
    ensures Says(e, CHUNKED)
  {
    var t := TrimLeft(e);
    assert t[..|CHUNKED|] == t;
  }

  lemma SpoiltCodes(s: Core, cur: seq<byte>, b: byte)
    requires s.hs.TransferEncoding? && s.index == 0 && IsFieldValue(b) && Spoilt(TrimLeft(cur), CHUNKED)
    ensures Codes(s, cur, b, InTeToken(s, b))
  {
    hide Says, TrimLeft;
    SpoiltSaysNothing(cur, CHUNKED);
    SpoiltNotEmpty(TrimLeft(cur), CHUNKED);
    TrimNext(cur, b);
    SpoiltStays(TrimLeft(cur), b, CHUNKED);
    OrdinaryCodes(s, cur, b);
  }

  lemma LastCodes(s: Core, cur: seq<byte>, b: byte)
    requires s.hs.TransferEncoding? && s.index == 0 && Says(cur, CHUNKED) && IsFieldValue(b)
    ensures Codes(s, cur, b, InTeLast(s, b))
  {
    hide Says, TrimLeft, Spoilt;
    TextIsNoMark(b);
    if b == SP {
      SpaceSays(cur, CHUNKED);
    } else if b != COMMA {
      OptionSpoils(cur, b, CHUNKED);
    }
  }

  lemma BlankCodes(s: Core, cur: seq<byte>, b: byte)
    requires s.st.TeOws? && Coding(s, cur) && IsBlank(b)
    ensures Codes(s, cur, b, InTeOws(s, b))
  {
    TrimNext(cur, b);
    PartOfChunked(cur, 0);
  }

  lemma CodingStep(g: Grammar, s: Core, cur: seq<byte>, b: byte)
    requires Coding(s, cur) && IsFieldValue(b)
    ensures Codes(s, cur, b, Step(g, s, b)) && !NeedsNoByte(s.st)
  {
    hide Codes, InTeChunked, InTeLast, InTeToken, Says, Spoilt, TrimLeft, Lower, IsFieldValue;
    match s.st
    case TeOws =>
      if IsBlank(b) {
        BlankCodes(s, cur, b);
      } else {
        assert CHUNKED[..0] == [] == Lower(TrimLeft(cur));
        WordCodes(s, cur, b);
      }
    case TeChunked => WordCodes(s, cur, b);
    case TeLast => LastCodes(s, cur, b);
    case TeToken => SpoiltCodes(s, cur, b);
  }

  lemma CodingListEnds(g: Grammar, s: Core, cur: seq<byte>)
    requires Coding(s, cur)
    ensures var r := Step(g, s, CR);
      && r == s.(st := ValueLf, hs := r.hs, index := 0)
      && ApplyToken(r) == r.(flags := if Says(cur, CHUNKED) then s.flags.(chunked := true) else s.flags)
    ensures !NeedsNoByte(s.st)
  {
    hide Says, Spoilt, TrimLeft, Letters, Lower;
    match s.st
    case TeOws =>
      CrIsNoLetter(Chunked);
      assert CHUNKED[..0] == [] == Lower(TrimLeft(cur));
      PartOfChunked(cur, 0);
    case TeChunked =>
      CrIsNoLetter(Chunked);
      PartOfChunked(cur, s.index);
    case TeLast =>
    case TeToken => SpoiltSaysNothing(cur, CHUNKED);
  }

  lemma {:induction false} CodingReads(g: Grammar, s: Core, cur: seq<byte>, v: seq<byte>)
    requires Coding(s, cur) && IsText(v)
    ensures var r, c := Feed(g, s, v + CRLF), CodingsFrom(cur, v);
      if c.BadCodings? then r.st == Failed(HPE_INVALID_TRANSFER_ENCODING)
      else
        && r.st.ValueLws?
        && ApplyToken(r) == s.(st := ValueLws, hs := ApplyToken(r).hs, index := 0,
                               flags := if c.chunked then s.flags.(chunked := true) else s.flags, log := s.log + Spans(ValueSpan, v))
    decreases |v|
  {
    hide Feed, Step, Settle, Coding, Codes, IsFieldValue, Says, ApplyToken;
    if v == [] {
      assert v + CRLF == CRLF && s.log + Spans(ValueSpan, v) == s.log;
      CodingListEnds(g, s, cur);
      LineFeedAfter(g, s);
    } else {
      var b, t := v[0], Step(g, s, v[0]);
      assert (v + CRLF)[1..] == v[1..] + CRLF;
      CodingStep(g, s, cur, b);
      ByteFirst(g, s, v + CRLF);
      CodesOn(s, cur, b, t);
      if b == COMMA && Says(cur, CHUNKED) {
        FailedStays(g, t, v[1..] + CRLF);
      } else {
        CodingReads(g, t, if b == COMMA then [] else cur + [b], v[1..]);
        assert t.log + Spans(ValueSpan, v[1..]) == s.log + Spans(ValueSpan, v);
      }
    }
  }

  lemma CodesOn(s: Core, cur: seq<byte>, b: byte, r: Core)
    requires Codes(s, cur, b, r)
    ensures if b == COMMA && Says(cur, CHUNKED) then r.st == Failed(HPE_INVALID_TRANSFER_ENCODING)
            else r == s.(st := r.st, index := r.index, log := s.log + [SpanByte(ValueSpan, b)]) && Coding(r, if b == COMMA then [] else cur + [b])
  {
  }

  /* ---- Content-Length ------------------------------------------------------------------------------------------------ */

  /** Digits that fit in 64 bits, with nothing but blanks after them. */
  predicate IsLength(v: seq<byte>) {
    DigitsOf(v) != [] && AllBlank(DigitsTail(v)) && LengthOf(v) <= UINT64_MAX
  }

  function DigitsTail(v: seq<byte>): seq<byte> {
    if v != [] && IsDigit(v[0]) then DigitsTail(v[1..]) else v
  }

  lemma {:induction false} DigitsSplit(v: seq<byte>)
    ensures v == DigitsOf(v) + DigitsTail(v) && (DigitsTail(v) != [] ==> !IsDigit(DigitsTail(v)[0]))
    decreases |v|
  {
    if v != [] && IsDigit(v[0]) {
      DigitsSplit(v[1..]);
      assert DigitsOf(v) + DigitsTail(v) == [v[0]] + (DigitsOf(v[1..]) + DigitsTail(v[1..]));
    }
  }

  /** Anything but blanks after the digits is refused. */
  lemma {:induction false} TailIsRefused(g: Grammar, s: Core, w: seq<byte>)
    requires (s.st.Length? && (w != [] ==> !IsDigit(w[0]))) || s.st.LengthWs?
    requires IsText(w) && !AllBlank(w)
    ensures Feed(g, s, w).st == Failed(HPE_INVALID_CONTENT_LENGTH)
    decreases |w|
  {
    hide Feed, Step, Settle, IsFieldValue, IsBlank;
    var b := w[0];
    ByteFirst(g, s, w);
    TailByte(g, s, b);
    if IsBlank(b) {
      TailIsRefused(g, Step(g, s, b), w[1..]);
    } else {
      FailedStays(g, Step(g, s, b), w[1..]);
    }
  }

  lemma TailByte(g: Grammar, s: Core, b: byte)
    requires (s.st.Length? && !IsDigit(b)) || s.st.LengthWs?
    requires IsFieldValue(b)
    ensures if IsBlank(b) then Step(g, s, b).st.LengthWs? else Step(g, s, b).st == Failed(HPE_INVALID_CONTENT_LENGTH)
  {
    TextIsNoMark(b);
  }

  lemma NoDigitsIsRefused(g: Grammar, s: Core, b: byte)
    requires s.st.DiscardWs? && s.hs.ContentLength? && IsFieldValue(b) && !IsBlank(b) && (s.flags.contentLength || !IsDigit(b))
    ensures Step(g, s, b).st == Failed(if s.flags.contentLength then HPE_UNEXPECTED_CONTENT_LENGTH else HPE_INVALID_CONTENT_LENGTH)
  {
    TextIsNoMark(b);
  }

  lemma MeasureReads(g: Grammar, s: Core, v: seq<byte>)
    requires s.st.DiscardWs? && s.hs.ContentLength? && (!s.flags.contentLength ==> s.length == 0)
    requires IsText(v) && v != [] && !IsBlank(v[0])
    ensures var r := Feed(g, s, v + CRLF);
      if s.flags.contentLength then r.st == Failed(HPE_UNEXPECTED_CONTENT_LENGTH)
      else if !IsLength(v) then r.st == Failed(HPE_INVALID_CONTENT_LENGTH)
      else r == s.(st := ValueLws, length := LengthOf(v), flags := s.flags.(contentLength := true), log := s.log + Spans(ValueSpan, v))
  {
    hide Feed, Step, Settle, Numeral, IsFieldValue, IsBlank;
    if s.flags.contentLength || !IsDigit(v[0]) {
      NoDigitsIsRefused(g, s, v[0]);
      ByteFirst(g, s, v + CRLF);
      FailedStays(g, Step(g, s, v[0]), (v + CRLF)[1..]);
    } else {
      GoodLengthReads(g, s, v);
    }
  }

  lemma GoodLengthReads(g: Grammar, s: Core, v: seq<byte>)
    requires s.st.DiscardWs? && s.hs.ContentLength? && !s.flags.contentLength && s.length == 0
    requires IsText(v) && v != [] && IsDigit(v[0])
    ensures var r := Feed(g, s, v + CRLF);
      if !IsLength(v) then r.st == Failed(HPE_INVALID_CONTENT_LENGTH)
      else r == s.(st := ValueLws, length := LengthOf(v), flags := s.flags.(contentLength := true), log := s.log + Spans(ValueSpan, v))
  {
    hide Feed, Step, Settle, Numeral, IsFieldValue, IsBlank, Spans, DigitsTail;
    var ds, w := DigitsOf(v), DigitsTail(v);
    DigitsSplit(v);
    assert v + CRLF == ds + (w + CRLF);
    FeedConcat(g, s, ds, w + CRLF);
    LengthDigits(g, s, ds);
    var t := Feed(g, s, ds);
    if t.st.Failed? {
      FailedStays(g, t, w + CRLF);
    } else {
      FeedConcat(g, t, w, CRLF);
      TailIsText(v, ds, w);
      if AllBlank(w) {
        BlanksAfter(g, t, w);
        LengthEnds(g, Feed(g, t, w));
        SpansConcat(ValueSpan, ds, w);
        assert w == [] ==> ds + w == ds;
        assert s.log + Spans(ValueSpan, ds) + Spans(ValueSpan, w) == s.log + Spans(ValueSpan, v);
      } else {
        TailIsRefused(g, t, w);
        FailedStays(g, Feed(g, t, w), CRLF);
      }
    }
  }

  lemma TailIsText(v: seq<byte>, ds: seq<byte>, w: seq<byte>)
    requires IsText(v) && v == ds + w
    ensures IsText(w)
  {
    forall i | 0 <= i < |w|
      ensures IsFieldValue(w[i])
    {
      assert w[i] == v[|ds| + i];
    }
  }

  /* ---- other values ------------------------------------------------------------------------------------------------------ */

  lemma TextByte(g: Grammar, s: Core, b: byte)
    requires s.st.Value? && IsFieldValue(b)
    ensures Step(g, s, b) == Into(s, ValueSpan, b, Value)
  {
  }

  lemma {:induction false} TextBytes(g: Grammar, s: Core, v: seq<byte>)
    requires s.st.Value? && IsText(v)
    ensures Feed(g, s, v + CRLF) == s.(st := ValueLws, log := s.log + Spans(ValueSpan, v))
    decreases |v|
  {
    hide Feed, Step, Settle, IsFieldValue;
    if v == [] {
      assert v + CRLF == CRLF && s.log + Spans(ValueSpan, v) == s.log;
      TextEnds(g, s);
      LineFeedAfter(g, s);
    } else {
      var t := Into(s, ValueSpan, v[0], Value);
      assert (v + CRLF)[1..] == v[1..] + CRLF;
      TextByte(g, s, v[0]);
      ByteFirst(g, s, v + CRLF);
      TextBytes(g, t, v[1..]);
      assert t.log + Spans(ValueSpan, v[1..]) == s.log + Spans(ValueSpan, v);
    }
  }

  lemma TextEnds(g: Grammar, s: Core)
    requires s.st.Value?
    ensures Step(g, s, CR) == s.(st := ValueLf)
  {
  }

  /** The first byte of a value, as the header's name says. */
  lemma FirstOfText(g: Grammar, s: Core, b: byte)
    requires s.st.DiscardWs? && IsFieldValue(b) && !IsBlank(b)
    ensures s.hs.General? ==> Step(g, s, b) == Into(s, ValueSpan, b, Value)
    ensures s.hs.Upgrade? ==> Step(g, s, b) == Into(s.(flags := s.flags.(upgrade := true), hs := General), ValueSpan, b, Value)
    ensures s.hs.Connection? ==> Step(g, s, b) == InConn(s, b)
    ensures s.hs.TransferEncoding? ==>
      Step(g, s, b) == if s.flags.chunked then Fail(s, HPE_INVALID_TRANSFER_ENCODING)
                       else InTeChunked(s.(flags := s.flags.(transferEncoding := true, chunked := false)), b)
  {
    hide InConn, InTeChunked;
    TextIsNoMark(b);
  }

  /* ---- lines ------------------------------------------------------------------------------------------------------------------ */

  /** What a line does to the flags and the length, or the error it is refused with: a second
      Content-Length (4), a Content-Length that is none (11), or a coding that may not be there (15). */
  datatype Effect = Refused(code: Errno) | Read(flags: Flags, length: nat)

  function ValueEffect(kind: HeaderKind, f: Flags, n: nat, v: seq<byte>): Effect {
    match kind
    case Connection => Read(SaidFrom(f, [], v), n)
    case ContentLength =>
      if v != [] && f.contentLength then Refused(4)
      else if !IsLength(v) then Refused(11)
      else Read(f.(contentLength := true), LengthOf(v))
    case TransferEncoding =>
      if v == [] then Read(f, n)
      else if f.chunked then Refused(15)
      else
        (match CodingsFrom([], v)
         case BadCodings => Refused(15)
         case Codings(c) => Read(f.(transferEncoding := true, chunked := c), n))
    case Upgrade => Read(if v == [] then f else f.(upgrade := true), n)
    case _ => Read(f, n)
  }

  /** Content-Length and Transfer-Encoding exclude each other. */
  function LineEffect(f: Flags, n: nat, l: Line): Effect {
    var kind := KindOf(l.name);
    if kind.ContentLength? && f.transferEncoding then Refused(11)
    else if kind.TransferEncoding? && f.contentLength then Refused(15)
    else ValueEffect(kind, f, n, l.value)
  }

  /** After a line: it was refused, or will be at the next byte. */
  predicate IsRefused(r: Core) {
    r.st.Failed? || (r.st.DiscardLws? && r.hs.ContentLength?)
  }

  predicate IsRefusedWith(r: Core, code: Errno) {
    r.st == Failed(code) || (r.st.DiscardLws? && r.hs.ContentLength? && code == HPE_INVALID_CONTENT_LENGTH)
  }

  /** What the run must be after a line with this effect, once the next line begins. */
  predicate HasEffect(s: Core, e: Effect, events: seq<Event>, r: Core) {
    match e
    case Refused(code) => IsRefusedWith(r, code)
    case Read(f, n) =>
      && LineRead(r.st) && !IsRefused(r)
      && NextLine(r) == s.(st := FieldStart, hs := NextLine(r).hs, index := 0, flags := f, length := n, log := s.log + events)
  }

  lemma SettledValue(s: Core, e: Effect, r: Core, v: seq<byte>)
    requires e.Read? && r.st.ValueLws?
    requires ApplyToken(r) == s.(st := ValueLws, hs := ApplyToken(r).hs, index := 0, flags := e.flags, length := e.length,
                                 log := s.log + Spans(ValueSpan, v))
    ensures HasEffect(s, e, Spans(ValueSpan, v) + [ValueComplete], r)
  {
    hide ApplyToken, Spans;
    assert s.log + Spans(ValueSpan, v) + [ValueComplete] == s.log + (Spans(ValueSpan, v) + [ValueComplete]);
  }

  /** A header whose name has been read and completed. */
  predicate Begun(s: Core) {
    && s.st.DiscardWs? && s.index == 0 && (!s.flags.contentLength ==> s.length == 0)
    && (s.hs.General? || s.hs.Connection? || s.hs.ContentLength? || s.hs.TransferEncoding? || s.hs.Upgrade?)
  }

  lemma EmptyMeans(g: Grammar, s: Core)
    requires Begun(s)
    ensures HasEffect(s, ValueEffect(s.hs, s.flags, s.length, []), Spans(ValueSpan, []) + [ValueComplete], Feed(g, s, CRLF))
  {
    hide Feed, Says;
    EmptyLineEnds(g, s);
    assert Spans(ValueSpan, []) + [ValueComplete] == [ValueComplete];
    if s.hs.Connection? {
      OptionsBegin();
      BlankSaysNothing([]);
    }
  }

  lemma ConnectionMeans(g: Grammar, s: Core, v: seq<byte>)
    requires Begun(s) && s.hs.Connection? && IsText(v) && v != [] && !IsBlank(v[0])
    ensures HasEffect(s, ValueEffect(s.hs, s.flags, s.length, v), Spans(ValueSpan, v) + [ValueComplete], Feed(g, s, v + CRLF))
  {
    hide Feed, Settle, InConn, IsFieldValue, IsBlank, SaidFrom, ApplyToken, HasEffect;
    var t, all := s.(st := Conn), v + CRLF;
    FirstOfText(g, s, v[0]);
    ConnForgets(s, Conn, v[0]);
    assert Step(g, t, v[0]) == InConn(t, v[0]);
    SettledAlready(s);
    SettledAlready(t);
    SameByte(g, s, t, all);
    ListReads(g, t, [], v);
    SettledValue(s, Read(SaidFrom(s.flags, [], v), s.length), Feed(g, s, all), v);
  }

  lemma CodingBegins(g: Grammar, s: Core, all: seq<byte>)
    requires Begun(s) && s.hs.TransferEncoding? && !s.flags.chunked && all != [] && IsFieldValue(all[0]) && !IsBlank(all[0])
    ensures Feed(g, s, all) == Feed(g, s.(st := TeOws, flags := s.flags.(transferEncoding := true, chunked := false)), all)
  {
    hide Feed, Settle, Step, InTeChunked, IsFieldValue, IsBlank;
    var coded := s.(flags := s.flags.(transferEncoding := true, chunked := false));
    var t := coded.(st := TeOws);
    FirstOfText(g, s, all[0]);
    CodingForgets(coded, TeOws, all[0]);
    NextOfCodings(g, t, all[0]);
    SettledAlready(s);
    SettledAlready(t);
    SameByte(g, s, t, all);
  }

  lemma NextOfCodings(g: Grammar, s: Core, b: byte)
    requires s.st.TeOws? && !IsBlank(b)
    ensures Step(g, s, b) == InTeChunked(s, b)
  {
    hide InTeChunked;
  }

  lemma CodingMeans(g: Grammar, s: Core, v: seq<byte>)
    requires Begun(s) && s.hs.TransferEncoding? && IsText(v) && v != [] && !IsBlank(v[0])
    ensures HasEffect(s, ValueEffect(s.hs, s.flags, s.length, v), Spans(ValueSpan, v) + [ValueComplete], Feed(g, s, v + CRLF))
  {
    hide Feed, Step, InTeChunked, IsFieldValue, CodingsFrom, ApplyToken, NextLine;
    var all := v + CRLF;
    FirstOfText(g, s, v[0]);
    if s.flags.chunked {
      ByteFirst(g, s, all);
      FailedStays(g, Step(g, s, v[0]), all[1..]);
    } else {
      var t := s.(st := TeOws, flags := s.flags.(transferEncoding := true, chunked := false));
      CodingBegins(g, s, all);
      CodingReads(g, t, [], v);
      var c := CodingsFrom([], v);
      if c.Codings? {
        SettledValue(s, Read(s.flags.(transferEncoding := true, chunked := c.chunked), s.length), Feed(g, s, all), v);
      }
    }
  }

  lemma LengthMeans(g: Grammar, s: Core, v: seq<byte>)
    requires Begun(s) && s.hs.ContentLength? && IsText(v) && v != [] && !IsBlank(v[0])
    ensures HasEffect(s, ValueEffect(s.hs, s.flags, s.length, v), Spans(ValueSpan, v) + [ValueComplete], Feed(g, s, v + CRLF))
  {
    hide Feed, IsFieldValue, IsBlank, IsLength, LengthOf, NextLine;
    MeasureReads(g, s, v);
    if !s.flags.contentLength && IsLength(v) {
      SettledValue(s, Read(s.flags.(contentLength := true), LengthOf(v)), Feed(g, s, v + CRLF), v);
    }
  }

  lemma TextMeans(g: Grammar, s: Core, v: seq<byte>)
    requires Begun(s) && (s.hs.General? || s.hs.Upgrade?) && IsText(v) && v != [] && !IsBlank(v[0])
    ensures HasEffect(s, ValueEffect(s.hs, s.flags, s.length, v), Spans(ValueSpan, v) + [ValueComplete], Feed(g, s, v + CRLF))
  {
    hide Feed, Step, IsFieldValue, IsBlank, HasEffect;
    var b, t := v[0], Step(g, s, v[0]);
    FirstOfText(g, s, b);
    ByteFirst(g, s, v + CRLF);
    assert (v + CRLF)[1..] == v[1..] + CRLF;
    TextBytes(g, t, v[1..]);
    assert t.log + Spans(ValueSpan, v[1..]) == s.log + Spans(ValueSpan, v);
    SettledValue(s, ValueEffect(s.hs, s.flags, s.length, v), Feed(g, s, v + CRLF), v);
  }

  lemma ValueMeans(g: Grammar, s: Core, v: seq<byte>)
    requires Begun(s) && IsText(v) && (v != [] ==> !IsBlank(v[0]))
    ensures HasEffect(s, ValueEffect(s.hs, s.flags, s.length, v), Spans(ValueSpan, v) + [ValueComplete], Feed(g, s, v + CRLF))
  {
    hide Feed, HasEffect, ValueEffect, IsFieldValue, IsBlank;
    if v == [] {
      assert v + CRLF == CRLF;
      EmptyMeans(g, s);
    } else if s.hs.Connection? {
      ConnectionMeans(g, s, v);
    } else if s.hs.ContentLength? {
      LengthMeans(g, s, v);
    } else if s.hs.TransferEncoding? {
      CodingMeans(g, s, v);
    } else {
      TextMeans(g, s, v);
    }
  }

  lemma KindsAreFew(name: seq<byte>)
    ensures var k := KindOf(name); k.General? || k.Connection? || k.ContentLength? || k.TransferEncoding? || k.Upgrade?
  {
    hide Lower;
  }

  /** The name is complete: two framing headers exclude each other here. */
  lemma NameSettles(s: Core)
    requires s.st.FieldDone?
    ensures Settle(s) ==
      if s.hs.ContentLength? && s.flags.transferEncoding then Fail(Note(s, FieldComplete), HPE_INVALID_CONTENT_LENGTH)
      else if s.hs.TransferEncoding? && s.flags.contentLength then Fail(Note(s, FieldComplete), HPE_INVALID_TRANSFER_ENCODING)
      else Note(s, FieldComplete).(st := DiscardWs)
  {
    hide Settle;
    var t := Note(s, FieldComplete).(st := FieldKnown);
    SettleMove(s);
    SettleMove(t);
    SettledAlready(Move(t));
  }

  /** A line means what its name and its value say. */
  lemma LineMeans(g: Grammar, s: Core, l: Line)
    requires AtHeader(s.st) && s.index == 0 && IsLine(l) && (!s.flags.contentLength ==> s.length == 0)
    ensures HasEffect(s, LineEffect(s.flags, s.length, l), LineEvents(l), Feed(g, s, LineBytes(l)))
  {
    hide Feed, Settle, KindOf, IsFieldValue, IsBlank, HasEffect, ValueEffect, IsName;
    var kind, rest := KindOf(l.name), l.before + (l.value + CRLF);
    KindsAreFew(l.name);
    assert LineBytes(l) == l.name + [COLON] + rest;
    FeedConcat(g, s, l.name + [COLON], rest);
    NameMeans(g, s, l.name);
    var t := s.(st := FieldDone, hs := kind, log := s.log + Spans(FieldSpan, l.name));
    NameSettles(t);
    var u := Settle(t);
    if u.st.Failed? {
      FailedStays(g, u, rest);
      RefusedHere(s, LineEvents(l), u);
    } else {
      FeedConcat(g, u, l.before, l.value + CRLF);
      BlanksBefore(g, u, l.before);
      ValueMeans(g, u, l.value);
      SameEffect(s, u, ValueEffect(kind, s.flags, s.length, l.value), l, Feed(g, u, l.value + CRLF));
    }
  }

  lemma RefusedHere(s: Core, events: seq<Event>, r: Core)
    requires r.st.Failed?
    ensures HasEffect(s, Refused(r.st.code), events, r)
  {
  }

  lemma SameEffect(s: Core, u: Core, e: Effect, l: Line, r: Core)
    requires u == s.(st := DiscardWs, hs := u.hs, log := s.log + Spans(FieldSpan, l.name) + [FieldComplete]) && s.index == 0
    requires HasEffect(u, e, Spans(ValueSpan, l.value) + [ValueComplete], r)
    ensures HasEffect(s, e, LineEvents(l), r)
  {
    hide NextLine, Spans;
    assert u.log + (Spans(ValueSpan, l.value) + [ValueComplete]) == s.log + LineEvents(l);
  }

  /* ---- sections ----------------------------------------------------------------------------------------------------------------- */

  /** The lines one after the other; the first refusal is final. */
  function SectionEffect(f: Flags, n: nat, ls: seq<Line>): Effect
    decreases |ls|
  {
    if ls == [] then Read(f, n)
    else
      match LineEffect(f, n, ls[0])
      case Refused(code) => Refused(code)
      case Read(f', n') => SectionEffect(f', n', ls[1..])
  }

  /** Where a section ends: in a header section or after the chunks. */
  function SectionDone(trailing: bool): St {
    if trailing then TrailersDone else HeadersDone
  }

  lemma EffectKeeps(f: Flags, n: nat, l: Line)
    requires !f.contentLength ==> n == 0
    ensures var e := LineEffect(f, n, l); e.Read? ==> (!e.flags.contentLength ==> e.length == 0) && e.flags.trailing == f.trailing
  {
    hide KindOf, Says, CodingsFrom, IsLength, LengthOf;
    SaidFromKeeps(f, [], l.value);
  }

  lemma {:induction false} SaidFromKeeps(f: Flags, cur: seq<byte>, v: seq<byte>)
    ensures SaidFrom(f, cur, v) == f.(close := SaidFrom(f, cur, v).close, keepAlive := SaidFrom(f, cur, v).keepAlive,
                                      connUpgrade := SaidFrom(f, cur, v).connUpgrade)
    decreases |v|
  {
    hide Says;
    if v != [] {
      if v[0] == COMMA {
        SaidFromKeeps(Said(f, cur), [], v[1..]);
      } else {
        SaidFromKeeps(f, cur + [v[0]], v[1..]);
      }
    }
  }

  lemma SectionStops(g: Grammar, s: Core)
    requires AtHeader(s.st)
    ensures Feed(g, s, CRLF) == Settle(s.(st := SectionDone(s.flags.trailing)))
  {
    hide Feed, Settle, Step;
    LinesNeedBytes(s);
    FeedTwo(g, s, CR, LF);
    SettledAlready(s);
    HeaderCr(g, s);
    var t := s.(st := HeadersLf);
    SettledAlready(t);
    SectionLf(g, t);
  }

  lemma SectionLf(g: Grammar, s: Core)
    requires s.st.HeadersLf?
    ensures Step(g, s, LF) == s.(st := SectionDone(s.flags.trailing))
  {
  }

  /** A refused line is refused before the next one is read. */
  lemma RefusalStays(g: Grammar, r: Core, code: Errno, rest: seq<byte>)
    requires IsRefusedWith(r, code) && rest != [] && !IsBlank(rest[0])
    ensures Feed(g, r, rest).st == Failed(code)
  {
    hide Feed, IsBlank;
    if r.st.Failed? {
      FailedStays(g, r, rest);
    } else {
      ByteFirst(g, r, rest);
      assert Step(g, r, rest[0]) == Fail(r, HPE_INVALID_CONTENT_LENGTH);
      FailedStays(g, Step(g, r, rest[0]), rest[1..]);
    }
  }

  /** After a line that was not refused, the next one begins. */
  lemma NextLineReads(g: Grammar, r: Core, rest: seq<byte>)
    requires LineRead(r.st) && !IsRefused(r) && rest != [] && !IsBlank(rest[0])
    ensures Feed(g, r, rest) == Feed(g, NextLine(r), rest)
  {
    hide Feed, Step, Settle, NextLine, IsBlank;
    NextLineBegins(r);
    NextLineSteps(g, r, rest[0]);
    LinesNeedBytes(r);
    LinesNeedBytes(NextLine(r));
    SettledAlready(r);
    SettledAlready(NextLine(r));
    SameByte(g, r, NextLine(r), rest);
  }

  lemma NextLineSteps(g: Grammar, s: Core, b: byte)
    requires LineRead(s.st) && !IsRefused(s) && !IsBlank(b)
    ensures Step(g, s, b) == Step(g, NextLine(s), b)
  {
    hide InFieldStart, ApplyToken, IsBlank;
    var t := Note(ApplyToken(s), ValueComplete);
    FieldStartForgets(t, FieldStart, b);
    assert Step(g, t.(st := FieldStart), b) == InFieldStart(t.(st := FieldStart), b);
  }

  /** A header section of any lines is accepted iff no line is refused, and then the parser has the flags
      and the length that the lines say. */
  lemma {:induction false} SectionMeans(g: Grammar, s: Core, ls: seq<Line>) returns (hs: HeaderKind)
    requires AtHeader(s.st) && s.index == 0 && AreLines(ls) && (!s.flags.contentLength ==> s.length == 0)
    ensures var r := Feed(g, s, SectionBytes(ls));
      match SectionEffect(s.flags, s.length, ls)
      case Refused(code) => r.st == Failed(code)
      case Read(f, n) =>
        r == Settle(s.(st := SectionDone(s.flags.trailing), hs := hs, flags := f, length := n, log := s.log + SectionEvents(ls)))
    decreases |ls|
  {
    hide Feed, Settle, LineBytes, LineEvents, LineEffect, AtHeader, IsLine, IsBlank;
    hs := s.hs;
    if ls == [] {
      SectionStops(g, s);
      assert s.log + SectionEvents(ls) == s.log;
    } else {
      var rest, r := SectionBytes(ls[1..]), Feed(g, s, LineBytes(ls[0]));
      FeedConcat(g, s, LineBytes(ls[0]), rest);
      LineMeans(g, s, ls[0]);
      SectionStarts(ls[1..]);
      EffectKeeps(s.flags, s.length, ls[0]);
      if LineEffect(s.flags, s.length, ls[0]).Refused? {
        RefusalStays(g, r, LineEffect(s.flags, s.length, ls[0]).code, rest);
      } else {
        NextLineReads(g, r, rest);
        NextLineBegins(r);
        hs := SectionMeans(g, NextLine(r), ls[1..]);
        assert s.log + LineEvents(ls[0]) + SectionEvents(ls[1..]) == s.log + SectionEvents(ls);
      }
    }
  }
}
