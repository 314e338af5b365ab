/** Header assembly: the parser reports names and values in pieces, two buffers collect them, and the
    header map takes a header when the next name begins or the headers end. */
module Headers {
  import opened Bytes
  import opened Buf
  import opened KHash
  import opened KHashModel
  import opened StrMap

  /* ---- the callbacks on values ----------------------------------------------------------------------- */

  /** The two buffers, whether the value buffer has any memory yet, and what has been put into the map
      since it was last cleared. `faulted`: a null value buffer was handed to `strdup`, and nothing
      after that is defined. */
  datatype Assembly = Assembly(field: seq<byte>, val: seq<byte>, written: bool, puts: seq<Entry>, faulted: bool)

  /** A connection that has just been accepted. */
  const ACCEPTED := Assembly([], [], false, [], false)

  datatype Call = Field(at: seq<byte>) | Value(at: seq<byte>) | HeadersComplete | MessageComplete

  function Flush(a: Assembly): Assembly {
    if !a.written then a.(faulted := true)
    else Assembly([], [], true, a.puts + [Entry(Terminated(Lower(a.field)), Terminated(a.val))], false)
  }

  function OnCall(a: Assembly, c: Call): Assembly {
    if a.faulted then a
    else
      match c
      case Field(at) =>
        var b := if a.field != [] && a.val != [] then Flush(a) else a;
        b.(field := b.field + at)
      case Value(at) => a.(val := a.val + at, written := a.written || at != [])
      case HeadersComplete => if a.field != [] then Flush(a) else a
      case MessageComplete => a.(puts := [])
  }

  function OnCalls(a: Assembly, cs: seq<Call>): Assembly
    decreases |cs|
  {
    if cs == [] then a else OnCalls(OnCall(a, cs[0]), cs[1..])
  }

  lemma {:induction false} OnCallsConcat(a: Assembly, cs: seq<Call>, ds: seq<Call>)
    ensures OnCalls(a, cs + ds) == OnCalls(OnCalls(a, cs), ds)
    decreases |cs|
  {
    if cs == [] {
      assert cs + ds == ds;
    } else {
      assert (cs + ds)[1..] == cs[1..] + ds;
      OnCallsConcat(OnCall(a, cs[0]), cs[1..], ds);
    }
  }

  /* ---- the callbacks as they run ------------------------------------------------------------------------ */

  class Assembler {
    const field: Buffer
    const val: Buffer
    const headers: Map
    ghost var puts: seq<Entry>

    ghost function Repr(): set<object>
      reads this, field, val, headers.h
    {
      {this} + field.Repr() + val.Repr() + headers.h.Repr()
    }

    ghost predicate Valid()
      reads this, field, field.Repr(), val, val.Repr(), headers, headers.h, headers.h.Repr()
    {
      && field.Valid() && val.Valid() && headers.Valid()
      && field.Repr() !! val.Repr() && field.Repr() !! headers.h.Repr() && val.Repr() !! headers.h.Repr()
      && this !in field.Repr() && this !in val.Repr() && this !in headers.h.Repr()
      && headers.Contents() == InsertAll(map[], puts)
    }

    ghost function View(): Assembly
      requires Valid()
      reads this, field, field.Repr(), val, val.Repr(), headers, headers.h, headers.h.Repr()
    {
      Assembly(field.Contents(), val.Contents(), val.data != null, puts, false)
    }

    constructor (hash: CStr -> nat)
      ensures Valid() && fresh(Repr()) && View() == ACCEPTED && headers.h.nBuckets == 0
    {
      field := new Buffer();
      val := new Buffer();
      headers := new Map(hash);
      puts := [];
    }

    /** Lower-case the collected name in place. */
    method LowerField()
      requires field.Valid()
      modifies field.Repr()
      ensures field.Valid() && field.Repr() == old(field.Repr()) && field.Contents() == Lower(old(field.Contents()))
    {
      ghost var was := field.Contents();
      for i := 0 to field.len
        invariant field.Valid() && field.Repr() == old(field.Repr()) && field.len == old(field.len) && field.data == old(field.data)
        invariant forall j :: 0 <= j < i ==> field.data[j] == LowerByte(was[j])
        invariant forall j :: i <= j < field.len ==> field.data[j] == was[j]
      {
        field.data[i] := LowerByte(field.data[i]);
      }
    }

    /** Put an entry into the map. */
    method Put(key: CStr, value: CStr)
      requires headers.Valid() && headers.h.CanPut() && headers.Contents() == InsertAll(map[], puts)
      requires this !in headers.h.Repr()
      modifies this`puts, headers.h.Repr()
      ensures headers.Valid() && fresh(headers.h.Repr() - old(headers.h.Repr())) && headers.Contents() == InsertAll(map[], puts)
      ensures puts == old(puts) + [Entry(key, value)]
    {
      hide InsertAll, Holds, Chained, UsedSet;
      InsertLast(map[], puts, Entry(key, value));
      headers.Set(key, value);
      puts := puts + [Entry(key, value)];
    }

    /** Read the two buffers as an entry and empty them; not ok when the value buffer is null. */
    method Collect() returns (ok: bool, key: CStr, value: CStr)
      requires field.Valid() && val.Valid() && field.Repr() !! val.Repr() && field.data != null
      modifies field.Repr(), val.Repr()
      ensures field.Valid() && val.Valid() && field.Repr() == old(field.Repr()) && val.Repr() == old(val.Repr())
      ensures ok <==> val.data != null
      ensures ok ==> field.Contents() == val.Contents() == []
      ensures ok ==> key == Terminated(Lower(old(field.Contents()))) && value == Terminated(old(val.Contents()))
    {
      hide IsCapacity, Lower, Terminated;
      LowerField();
      var named;
      named, key := field.Text();
      ok, value := val.Text();
      if ok {
        field.Reset();
        val.Reset();
      }
    }

    /** Put the collected header into the map and start over; not ok when `strdup` is given null. */
    method Store() returns (ok: bool)
      requires Valid() && field.data != null && headers.h.CanPut()
      modifies Repr()
      ensures ok <==> !Flush(old(View())).faulted
      ensures ok ==> Valid() && fresh(Repr() - old(Repr())) && View() == Flush(old(View()))
    {
      hide InsertAll, IsCapacity, Holds, Chained, UsedSet, Lower, Terminated;
      var key, value;
      ok, key, value := Collect();
      assert headers.Valid() && headers.Contents() == InsertAll(map[], puts) && headers.h.CanPut();
      if ok {
        Put(key, value);
      }
    }

    method AppendField(at: seq<byte>)
      requires Valid()
      modifies field.Repr()
      ensures Valid() && fresh(Repr() - old(Repr())) && View() == old(View()).(field := old(View()).field + at)
    {
      hide InsertAll, IsCapacity, Holds, Chained, UsedSet;
      field.Append(at);
    }

    /** `cb_header_field` */
    method OnField(at: seq<byte>)
      requires Valid() && (field.len > 0 && val.len > 0 ==> headers.h.CanPut())
      modifies Repr()
      ensures Valid() && fresh(Repr() - old(Repr())) && View() == OnCall(old(View()), Field(at))
    {
      hide Valid, InsertAll, Lower, Terminated;
      PendingIsSeen();
      if field.len > 0 && val.len > 0 {
        var ok := Store();
      }
      AppendField(at);
    }

    lemma PendingIsSeen()
      requires Valid()
      ensures (field.len > 0 <==> View().field != []) && (val.len > 0 <==> View().val != [])
      ensures (field.len > 0 ==> field.data != null) && (val.len > 0 ==> View().written)
    {
      hide InsertAll, IsCapacity, Holds, Chained, UsedSet;
    }

    /** `cb_header_value` */
    method OnValue(at: seq<byte>)
      requires Valid()
      modifies Repr()
      ensures Valid() && fresh(Repr() - old(Repr())) && View() == OnCall(old(View()), Value(at))
    {
      hide InsertAll, IsCapacity, Holds, Chained, UsedSet;
      val.Append(at);
    }

    /** `cb_headers_complete`; not ok when it faults. */
    method OnHeadersComplete() returns (ok: bool)
      requires Valid() && (field.len > 0 ==> headers.h.CanPut())
      modifies Repr()
      ensures ok <==> !OnCall(old(View()), HeadersComplete).faulted
      ensures ok ==> Valid() && fresh(Repr() - old(Repr())) && View() == OnCall(old(View()), HeadersComplete)
    {
      hide InsertAll, IsCapacity, Holds, Chained, UsedSet, Lower, Terminated;
      ok := true;
      if field.len > 0 {
        ok := Store();
      }
    }

    /** `cb_message_complete`: the map is cleared, the two buffers are not. */
    method OnMessageComplete()
      requires Valid()
      modifies Repr()
      ensures Valid() && fresh(Repr() - old(Repr())) && View() == OnCall(old(View()), MessageComplete)
    {
      hide IsCapacity, Holds, Chained, UsedSet;
      headers.Clear();
      puts := [];
    }

    /** One callback. */
    method On(c: Call) returns (ok: bool)
      requires Valid() && |InsertAll(map[], puts)| < MAX_GROWABLE
      modifies Repr()
      ensures ok <==> !OnCall(old(View()), c).faulted
      ensures ok ==> Valid() && fresh(Repr() - old(Repr())) && View() == OnCall(old(View()), c)
    {
      hide InsertAll, IsCapacity, Holds, Chained, UsedSet, Lower, Terminated;
      headers.h.FewKeysCanPut();
      ok := true;
      match c {
        case Field(at) => OnField(at);
        case Value(at) => OnValue(at);
        case HeadersComplete => ok := OnHeadersComplete();
        case MessageComplete => OnMessageComplete();
      }
    }

    /** Any sequence of callbacks, up to the fault if there is one. */
    method OnAll(cs: seq<Call>) returns (ok: bool)
      requires Valid()
      requires forall i :: 0 <= i < |cs| ==> |InsertAll(map[], OnCalls(View(), cs[..i]).puts)| < MAX_GROWABLE
      modifies Repr()
      ensures ok <==> !OnCalls(old(View()), cs).faulted
      ensures ok ==> Valid() && fresh(Repr() - old(Repr())) && View() == OnCalls(old(View()), cs)
    {
      hide Valid, InsertAll, OnCall, OnCalls;
      ghost var start := View();
      NoCalls(start, cs);
      for i := 0 to |cs|
        invariant Valid()
        invariant fresh(Repr() - old(Repr()))
        invariant View() == OnCalls(start, cs[..i])
      {
        NextCall(start, cs, i);
        ok := On(cs[i]);
        if !ok {
          FaultStays(start, cs, i + 1);
          return false;
        }
      }
      assert cs[..|cs|] == cs;
      return true;
    }

    /** Looking a header up without regard to case is looking its lower-cased name up. */
    method Header(name: CStr) returns (v: Option<CStr>)
      requires Valid() && LowerPuts(puts)
      ensures v == Lookup(InsertAll(map[], puts), Lower(name))
    {
      v := headers.GetCi(name);
      LowerPutsLowerKeys(puts);
      CaselessIsLowerLookup(headers.Contents(), name, v);
    }
  }

  lemma NoCalls(a: Assembly, cs: seq<Call>)
    ensures OnCalls(a, cs[..0]) == a
  {
  }

  lemma NextCall(a: Assembly, cs: seq<Call>, i: nat)
    requires i < |cs|
    ensures OnCalls(a, cs[..i + 1]) == OnCall(OnCalls(a, cs[..i]), cs[i])
  {
    hide OnCall;
    assert cs[..i + 1] == cs[..i] + [cs[i]];
    OnCallsConcat(a, cs[..i], [cs[i]]);
    assert [cs[i]][1..] == [];
  }

  lemma FaultStays(a: Assembly, cs: seq<Call>, i: nat)
    requires i <= |cs| && OnCalls(a, cs[..i]).faulted
    ensures OnCalls(a, cs).faulted
  {
    assert cs == cs[..i] + cs[i..];
    OnCallsConcat(a, cs[..i], cs[i..]);
    FaultedIgnores(OnCalls(a, cs[..i]), cs[i..]);
  }

  lemma {:induction false} FaultedIgnores(a: Assembly, cs: seq<Call>)
    requires a.faulted
    ensures OnCalls(a, cs) == a
    decreases |cs|
  {
    if cs != [] {
      FaultedIgnores(a, cs[1..]);
    }
  }

  /* ---- what the map holds ---------------------------------------------------------------------------------- */

  /** Every key put is lower-case. */
  predicate LowerPuts(puts: seq<Entry>) {
    forall i :: 0 <= i < |puts| ==> Lower(puts[i].key) == puts[i].key
  }

  lemma {:induction false} LowerPutsLowerKeys(puts: seq<Entry>)
    requires LowerPuts(puts)
    ensures LowerKeys(InsertAll(map[], puts))
    decreases |puts|
  {
    if puts != [] {
      LowerPutsLowerKeys(puts[..|puts| - 1]);
    }
  }

  lemma {:induction false} TerminatedLower(s: seq<byte>)
    ensures Lower(Terminated(Lower(s))) == Terminated(Lower(s))
    decreases |s|
  {
    if s != [] && Lower(s)[0] != NUL {
      TerminatedLower(s[1..]);
      assert Lower(s)[1..] == Lower(s[1..]);
      assert Terminated(Lower(s)) == [Lower(s)[0]] + Terminated(Lower(s[1..]));
      LowerConcat([Lower(s)[0]], Terminated(Lower(s[1..])));
    }
  }

  /** The callbacks keep all keys lower-case, so `Header` may be used after any of them. */
  lemma {:induction false} CallsKeepLower(a: Assembly, cs: seq<Call>)
    requires LowerPuts(a.puts)
    ensures LowerPuts(OnCalls(a, cs).puts)
    decreases |cs|
  {
    if cs != [] {
      TerminatedLower(a.field);
      CallsKeepLower(OnCall(a, cs[0]), cs[1..]);
    }
  }

  /* ---- cuts --------------------------------------------------------------------------------------------------- */

  datatype Header = Header(name: seq<byte>, value: seq<byte>)

  /** A header as the parser may report it: its name and its value in pieces. */
  datatype Cut = Cut(names: seq<seq<byte>>, values: seq<seq<byte>>)

  predicate IsCut(c: Cut, h: Header) {
    c.names != [] && Flatten(c.names) == h.name && Flatten(c.values) == h.value
  }

  predicate AreCuts(cs: seq<Cut>, hs: seq<Header>) {
    |cs| == |hs| && forall i :: 0 <= i < |hs| ==> IsCut(cs[i], hs[i])
  }

  function Fields(ps: seq<seq<byte>>): seq<Call> {
    if ps == [] then [] else [Field(ps[0])] + Fields(ps[1..])
  }

  function Values(ps: seq<seq<byte>>): seq<Call> {
    if ps == [] then [] else [Value(ps[0])] + Values(ps[1..])
  }

  function HeaderCalls(cs: seq<Cut>): seq<Call> {
    if cs == [] then [] else Fields(cs[0].names) + (Values(cs[0].values) + HeaderCalls(cs[1..]))
  }

  /** A value is only ever pending under a name, in a buffer that has been written. */
  predicate Coherent(a: Assembly) {
    !a.faulted && (a.val != [] ==> a.field != [] && a.written)
  }

  /** What a whole header does, however it is cut. */
  function OneHeader(a: Assembly, h: Header): Assembly {
    var b := if a.field != [] && a.val != [] then Flush(a) else a;
    Assembly(b.field + h.name, b.val + h.value, b.written || h.value != [], b.puts, b.faulted)
  }

  function AllHeaders(a: Assembly, hs: seq<Header>): Assembly
    decreases |hs|
  {
    if hs == [] then a else AllHeaders(OneHeader(a, hs[0]), hs[1..])
  }

  lemma {:induction false} NamePieces(a: Assembly, ps: seq<seq<byte>>)
    requires a.val == [] && !a.faulted
    ensures OnCalls(a, Fields(ps)) == a.(field := a.field + Flatten(ps))
    decreases |ps|
  {
    if ps == [] {
      assert a.field + [] == a.field;
    } else {
      var b := a.(field := a.field + ps[0]);
      NamePieces(b, ps[1..]);
      assert b.field + Flatten(ps[1..]) == a.field + Flatten(ps);
      assert Fields(ps)[1..] == Fields(ps[1..]);
    }
  }

  lemma {:induction false} ValuePieces(a: Assembly, ps: seq<seq<byte>>)
    requires !a.faulted
    ensures OnCalls(a, Values(ps)) == a.(val := a.val + Flatten(ps), written := a.written || Flatten(ps) != [])
    decreases |ps|
  {
    if ps == [] {
      assert a.val + [] == a.val;
    } else {
      var b := a.(val := a.val + ps[0], written := a.written || ps[0] != []);
      ValuePieces(b, ps[1..]);
      assert b.val + Flatten(ps[1..]) == a.val + Flatten(ps);
      assert Values(ps)[1..] == Values(ps[1..]);
    }
  }

  lemma FirstPiece(a: Assembly, ps: seq<seq<byte>>)
    requires ps != []
    ensures OnCalls(a, Fields(ps)) == OnCalls(OnCall(a, Field(ps[0])), Fields(ps[1..]))
  {
    hide OnCall;
    assert Fields(ps)[1..] == Fields(ps[1..]);
  }

  lemma NamePiecesFlush(a: Assembly, ps: seq<seq<byte>>)
    requires Coherent(a) && ps != []
    ensures var b := if a.field != [] && a.val != [] then Flush(a) else a;
      OnCalls(a, Fields(ps)) == b.(field := b.field + Flatten(ps))
  {
    hide OnCalls, Fields, Terminated, Lower;
    var b := if a.field != [] && a.val != [] then Flush(a) else a;
    var c := b.(field := b.field + ps[0]);
    FirstPiece(a, ps);
    NamePieces(c, ps[1..]);
    assert c.field + Flatten(ps[1..]) == b.field + Flatten(ps);
  }

  /** The cut does not matter. */
  lemma {:induction false} CutsDoNotMatter(a: Assembly, cs: seq<Cut>, hs: seq<Header>)
    requires Coherent(a) && AreCuts(cs, hs) && Named(hs)
    ensures OnCalls(a, HeaderCalls(cs)) == AllHeaders(a, hs) && Coherent(AllHeaders(a, hs))
    decreases |cs|
  {
    hide Fields, Values, OnCall, Flatten;
    if cs != [] {
      var names, values, rest := Fields(cs[0].names), Values(cs[0].values), HeaderCalls(cs[1..]);
      assert IsCut(cs[0], hs[0]);
      OnCallsConcat(a, names, values + rest);
      NamePiecesFlush(a, cs[0].names);
      var b := OnCalls(a, names);
      OnCallsConcat(b, values, rest);
      ValuePieces(b, cs[0].values);
      assert OnCalls(b, values) == OneHeader(a, hs[0]);
      CutsDoNotMatter(OneHeader(a, hs[0]), cs[1..], hs[1..]);
    }
  }

  predicate Named(hs: seq<Header>) {
    forall i :: 0 <= i < |hs| ==> hs[i].name != []
  }

  /* ---- what ends up in the map ----------------------------------------------------------------------------- */

  function EntryFor(name: seq<byte>, value: seq<byte>): Entry {
    Entry(Terminated(Lower(name)), Terminated(value))
  }

  /** The entries of a header section, starting with a pending name and value. */
  function PutsOf(f: seq<byte>, v: seq<byte>, hs: seq<Header>): seq<Entry>
    decreases |hs|
  {
    if hs == [] then if f != [] then [EntryFor(f, v)] else []
    else if f != [] && v != [] then [EntryFor(f, v)] + PutsOf(hs[0].name, hs[0].value, hs[1..])
    else PutsOf(f + hs[0].name, v + hs[0].value, hs[1..])
  }

  /** No header has a value. */
  predicate NoValues(hs: seq<Header>) {
    forall i :: 0 <= i < |hs| ==> hs[i].value == []
  }

  /** What the headers of a message end as: the entries of the section, or the fault of a name whose
      value buffer nothing was ever written to. */
  lemma {:induction false} HeadersPut(a: Assembly, hs: seq<Header>)
    requires Coherent(a) && Named(hs)
    ensures var r := OnCall(AllHeaders(a, hs), HeadersComplete);
      if (a.field != [] || hs != []) && !a.written && NoValues(hs) then r.faulted
      else r == Assembly([], [], a.written || !NoValues(hs), a.puts + PutsOf(a.field, a.val, hs), false)
    decreases |hs|
  {
    hide Terminated, Lower;
    if hs == [] {
      assert a.puts + [] == a.puts;
    } else {
      var b := OneHeader(a, hs[0]);
      HeadersPut(b, hs[1..]);
      assert NoValues(hs) <==> hs[0].value == [] && NoValues(hs[1..]);
      if a.field != [] && a.val != [] {
        assert [] + hs[0].name == hs[0].name && [] + hs[0].value == hs[0].value;
        assert b.puts + PutsOf(b.field, b.val, hs[1..]) == a.puts + PutsOf(a.field, a.val, hs);
      }
    }
  }

  /** What the map is meant to take. */
  function Intended(hs: seq<Header>): (es: seq<Entry>)
    ensures |es| == |hs|
  {
    seq(|hs|, i requires 0 <= i < |hs| => EntryFor(hs[i].name, hs[i].value))
  }

  predicate NulFree(hs: seq<Header>) {
    forall i :: 0 <= i < |hs| ==> NUL !in hs[i].name && NUL !in hs[i].value
  }

  /** Only the last header may have an empty value. */
  predicate ValuesPresent(hs: seq<Header>) {
    forall i :: 0 <= i < |hs| - 1 ==> hs[i].value != []
  }

  lemma {:induction false} PutsInOrder(f: seq<byte>, v: seq<byte>, hs: seq<Header>)
    requires f != [] && Named(hs) && (hs != [] ==> v != []) && ValuesPresent(hs)
    ensures PutsOf(f, v, hs) == [EntryFor(f, v)] + Intended(hs)
    decreases |hs|
  {
    hide EntryFor;
    if hs != [] {
      PutsInOrder(hs[0].name, hs[0].value, hs[1..]);
      assert Intended(hs) == [EntryFor(hs[0].name, hs[0].value)] + Intended(hs[1..]);
    }
  }

  /** Whatever is put before the last entry has a value. */
  lemma {:induction false} OnlyTheLastIsEmpty(f: seq<byte>, v: seq<byte>, hs: seq<Header>, i: nat)
    requires NulFree(hs) && NUL !in v && i < |PutsOf(f, v, hs)| - 1
    ensures PutsOf(f, v, hs)[i].val != []
    decreases |hs|
  {
    if f != [] && v != [] {
      if i > 0 {
        OnlyTheLastIsEmpty(hs[0].name, hs[0].value, hs[1..], i - 1);
      }
    } else {
      OnlyTheLastIsEmpty(f + hs[0].name, v + hs[0].value, hs[1..], i);
    }
  }

  /** A header section puts exactly its headers into the map iff nothing was pending before it and
      only its last value may be empty. */
  lemma PutsAreIntended(f: seq<byte>, v: seq<byte>, hs: seq<Header>)
    requires Named(hs) && NulFree(hs) && NUL !in f && NUL !in v && (v != [] ==> f != [])
    ensures PutsOf(f, v, hs) == Intended(hs) <==> f == [] && ValuesPresent(hs)
  {
    hide EntryFor;
    if f == [] && ValuesPresent(hs) && hs != [] {
      PutsInOrder(hs[0].name, hs[0].value, hs[1..]);
      assert f + hs[0].name == hs[0].name && v + hs[0].value == hs[0].value;
      assert Intended(hs) == [EntryFor(hs[0].name, hs[0].value)] + Intended(hs[1..]);
    }
    if PutsOf(f, v, hs) == Intended(hs) {
      IntendedHasValues(f, v, hs);
      if f != [] && hs != [] {
        PendingShows(f, v, hs);
      }
    }
  }

  lemma IntendedHasValues(f: seq<byte>, v: seq<byte>, hs: seq<Header>)
    requires NulFree(hs) && NUL !in v && PutsOf(f, v, hs) == Intended(hs)
    ensures ValuesPresent(hs)
  {
    forall i | 0 <= i < |hs| - 1
      ensures hs[i].value != []
    {
      OnlyTheLastIsEmpty(f, v, hs, i);
      assert Intended(hs)[i] == EntryFor(hs[i].name, hs[i].value);
    }
  }

  /** A pending name adds an entry, or lengthens the first name. */
  lemma PendingShows(f: seq<byte>, v: seq<byte>, hs: seq<Header>)
    requires f != [] && hs != [] && Named(hs) && NulFree(hs) && NUL !in f && ValuesPresent(hs)
    ensures PutsOf(f, v, hs) != Intended(hs)
  {
    var name, value, rest := hs[0].name, hs[0].value, hs[1..];
    if v != [] {
      PutsInOrder(name, value, rest);
      assert |PutsOf(f, v, hs)| == |hs| + 1;
    } else {
      PutsInOrder(f + name, value, rest);
      assert v + value == value;
      LowerKeepsNul(f + name);
      LowerKeepsNul(name);
      assert |PutsOf(f, v, hs)[0].key| == |f| + |name|;
      assert |Intended(hs)[0].key| == |name|;
    }
  }

  /** Header assembly for one message, from any state the callbacks can be in and however it is cut.
      The end of the headers faults iff there is a name to store and no value byte was ever written.
      The entries are the headers in order iff no name is pending, only the last value may be empty,
      and a single header without a value finds the value buffer already written. */
  lemma MessageHeaders(a: Assembly, cs: seq<Cut>, hs: seq<Header>)
    requires Coherent(a) && a.puts == [] && NUL !in a.field && NUL !in a.val
    requires AreCuts(cs, hs) && Named(hs) && NulFree(hs)
    ensures var r := OnCalls(a, HeaderCalls(cs) + [HeadersComplete]);
      && (r.faulted <==> (a.field != [] || hs != []) && !a.written && NoValues(hs))
      && (!r.faulted ==> r.field == [] && r.val == [])
      && (!r.faulted && r.puts == Intended(hs) <==>
            a.field == [] && ValuesPresent(hs) && (hs == [] || a.written || hs[0].value != []))
  {
    hide OnCall, HeaderCalls, PutsOf, AllHeaders;
    OnCallsConcat(a, HeaderCalls(cs), [HeadersComplete]);
    CutsDoNotMatter(a, cs, hs);
    assert [HeadersComplete][1..] == [];
    HeadersPut(a, hs);
    PutsAreIntended(a.field, a.val, hs);
    assert [] + PutsOf(a.field, a.val, hs) == PutsOf(a.field, a.val, hs);
    if hs != [] && ValuesPresent(hs) && hs[0].value == [] {
      assert |hs| == 1;
    }
  }

  /** `X:` as the only header on a fresh connection: the callbacks fault. */
  lemma FreshEmptyValueFaults(x: seq<byte>)
    requires x != []
    ensures OnCalls(ACCEPTED, [Field(x), Value([]), HeadersComplete]).faulted
  {
    var cs := [Field(x), Value([]), HeadersComplete];
    assert cs[1..] == [Value([]), HeadersComplete] && cs[1..][1..] == [HeadersComplete] && cs[1..][1..][1..] == [];
    var a := ACCEPTED.(field := x);
    assert [] + x == x;
    assert OnCall(ACCEPTED, Field(x)) == a;
    assert a.val + [] == a.val;
    assert OnCall(a, Value([])) == a;
    assert OnCall(a, HeadersComplete) == a.(faulted := true);
    assert OnCalls(a, [HeadersComplete]) == OnCalls(a.(faulted := true), []);
    assert OnCalls(ACCEPTED, cs) == OnCalls(a, cs[1..]) == OnCalls(a, [HeadersComplete]);
  }

  /** The map of a message whose headers are assembled as intended: every name is found, lower-cased,
      with the value of its last header. */
  lemma HeaderMap(hs: seq<Header>, i: nat)
    requires i < |hs| && NulFree(hs)
    requires forall j :: i < j < |hs| ==> Lower(hs[j].name) != Lower(hs[i].name)
    ensures var v := Lookup(InsertAll(map[], Intended(hs)), Lower(hs[i].name)); v.Some? && v.value == hs[i].value
  {
    hide InsertAll;
    var es := Intended(hs);
    LowerKeepsNul(hs[i].name);
    assert es[i].key == Lower(hs[i].name) && es[i].val == hs[i].value;
    forall j | i < j < |es|
      ensures es[j].key != es[i].key
    {
      LowerKeepsNul(hs[j].name);
    }
    assert IsLast(es, i);
    InsertAllIsLastWins(es, es[i].key);
  }

  /* ---- trailers ------------------------------------------------------------------------------------------------ */

  /** Trailers are reported like headers, but no headers-complete follows: their last name and value are
      still pending when the message completes and the map is cleared. */
  lemma TrailersLeak(a: Assembly, cs: seq<Cut>, hs: seq<Header>)
    requires Coherent(a) && AreCuts(cs, hs) && Named(hs)
    ensures var r := OnCalls(a, HeaderCalls(cs) + [MessageComplete]);
      && !r.faulted && r.puts == [] && (hs != [] || a.field != [] <==> r.field != [])
      && (hs != [] && ValuesPresent(hs) ==>
            && r.field == (if |hs| == 1 && a.val == [] then a.field else []) + hs[|hs| - 1].name
            && r.val == hs[|hs| - 1].value)
  {
    hide OnCall, HeaderCalls, AllHeaders;
    OnCallsConcat(a, HeaderCalls(cs), [MessageComplete]);
    CutsDoNotMatter(a, cs, hs);
    assert [MessageComplete][1..] == [];
    NamePending(a, hs);
    Cleared(AllHeaders(a, hs));
    if hs != [] && ValuesPresent(hs) {
      LastPending(a, hs);
    }
  }

  lemma {:induction false} LastPending(a: Assembly, hs: seq<Header>)
    requires Coherent(a) && Named(hs) && hs != [] && ValuesPresent(hs)
    ensures var r := AllHeaders(a, hs);
      && r.field == (if |hs| == 1 && a.val == [] then a.field else []) + hs[|hs| - 1].name
      && r.val == hs[|hs| - 1].value
    decreases |hs|
  {
    hide Terminated, Lower;
    if |hs| > 1 {
      LastPending(OneHeader(a, hs[0]), hs[1..]);
    }
  }

  lemma Cleared(a: Assembly)
    requires !a.faulted
    ensures OnCall(a, MessageComplete) == a.(puts := [])
  {
  }

  lemma {:induction false} NamePending(a: Assembly, hs: seq<Header>)
    requires Named(hs)
    ensures AllHeaders(a, hs).field != [] <==> hs != [] || a.field != []
    decreases |hs|
  {
    if hs != [] {
      NamePending(OneHeader(a, hs[0]), hs[1..]);
    }
  }

  lemma OneCall(a: Assembly, c: Call, cs: seq<Call>)
    ensures OnCalls(a, [c] + cs) == OnCalls(OnCall(a, c), cs)
  {
  }

  /** A header `a` with an empty value before `b: c` is not stored: the map gets `ab` instead. */
  lemma EmptyValueExample()
    ensures OnCalls(ACCEPTED, [Field([97]), Value([]), Field([98]), Value([99]), HeadersComplete]).puts == [EntryFor([97, 98], [99])]
  {
    hide OnCalls, Terminated, Lower;
    var tail := [Field([98]), Value([99]), HeadersComplete];
    var a := ACCEPTED.(field := [97]);
    assert [Field([97]), Value([]), Field([98]), Value([99]), HeadersComplete] == [Field([97])] + ([Value([])] + tail);
    OneCall(ACCEPTED, Field([97]), [Value([])] + tail);
    assert [] + [97] == [97] && a.val + [] == a.val;
    OneCall(a, Value([]), tail);
    LastHeader(a, [98], [99]);
    GluedEntry();
    assert a.puts + [EntryFor([97, 98], [99])] == [EntryFor([97, 98], [99])];
  }

  lemma GluedEntry()
    ensures PutsOf([97], [], [Header([98], [99])]) == [EntryFor([97, 98], [99])]
  {
    hide EntryFor;
    assert [Header([98], [99])][1..] == [] && [97] + [98] == [97, 98] && [] + [99] == [99];
    assert PutsOf([97, 98], [99], []) == [EntryFor([97, 98], [99])];
  }

  /** The end of a header section whose last header comes in one piece. */
  lemma LastHeader(a: Assembly, name: seq<byte>, value: seq<byte>)
    requires Coherent(a) && name != [] && value != []
    ensures OnCalls(a, [Field(name), Value(value), HeadersComplete]) ==
            Assembly([], [], true, a.puts + PutsOf(a.field, a.val, [Header(name, value)]), false)
  {
    hide OnCall, PutsOf;
    var h, cs := Header(name, value), [Cut([name], [value])];
    assert [name][1..] == [] && [value][1..] == [] && cs[1..] == [] && [h][1..] == [];
    assert Flatten([name]) == name + Flatten([]) && Flatten([value]) == value + Flatten([]);
    assert Fields([name]) == [Field(name)] + Fields([]) && Values([value]) == [Value(value)] + Values([]);
    assert HeaderCalls(cs) == [Field(name), Value(value)] + HeaderCalls([]);
    assert [Field(name), Value(value), HeadersComplete] == HeaderCalls(cs) + [HeadersComplete];
    OnCallsConcat(a, HeaderCalls(cs), [HeadersComplete]);
    OneCall(AllHeaders(a, [h]), HeadersComplete, []);
    CutsDoNotMatter(a, cs, [h]);
    HeadersPut(a, [h]);
  }

  /** `Upgrade: websocket` is stored as `upgrade`, and asked for in any case it is found. */
  lemma UpgradeExample()
    ensures var upgrade, websocket: CStr := [117, 112, 103, 114, 97, 100, 101], [119, 101, 98, 115, 111, 99, 107, 101, 116];
      var r := OnCalls(ACCEPTED, [Field([85, 112, 103, 114, 97, 100, 101]), Value(websocket), HeadersComplete]);
      && r.puts == [Entry(upgrade, websocket)]
      && IsCaselessHit(InsertAll(map[], r.puts), [85, 80, 71, 82, 65, 68, 69], Some(websocket))
  {
    hide OnCalls, InsertAll, IsCaselessHit, Terminated;
    var upgrade, websocket: CStr := [117, 112, 103, 114, 97, 100, 101], [119, 101, 98, 115, 111, 99, 107, 101, 116];
    var capital, question: seq<byte> := [85, 112, 103, 114, 97, 100, 101], [85, 80, 71, 82, 65, 68, 69];
    LastHeader(ACCEPTED, capital, websocket);
    assert Lower(capital) == upgrade && Lower(question) == upgrade;
    assert EntryFor(capital, websocket) == Entry(upgrade, websocket);
    OnePut(capital, websocket);
    var puts := [Entry(upgrade, websocket)];
    assert [] + puts == puts;
    InsertLast(map[], [], Entry(upgrade, websocket));
    assert [] + [Entry(upgrade, websocket)] == puts;
    InsertNothing();
    assert LowerKeys(InsertAll(map[], puts));
    CaselessIsLowerLookup(InsertAll(map[], puts), question, Some(websocket));
  }

  lemma InsertNothing()
    ensures InsertAll(map[], []) == map[]
  {
  }

  lemma OnePut(name: seq<byte>, value: seq<byte>)
    requires name != []
    ensures PutsOf([], [], [Header(name, value)]) == [EntryFor(name, value)]
  {
    hide EntryFor;
    assert [Header(name, value)][1..] == [] && [] + name == name && [] + value == value;
    assert PutsOf(name, value, []) == [EntryFor(name, value)];
  }

  /** A trailer `t: u` of one message turns up among the headers of the next. */
  lemma TrailerExample()
    ensures OnCalls(ACCEPTED, [Field([97]), Value([98]), HeadersComplete, Field([116]), Value([117]), MessageComplete,
                               Field([99]), Value([100]), HeadersComplete]).puts
         == [EntryFor([116], [117]), EntryFor([99], [100])]
  {
    hide OnCalls, Terminated, Lower;
    var first, last := [Field([97]), Value([98]), HeadersComplete], [Field([99]), Value([100]), HeadersComplete];
    var trailer := [Field([116]), Value([117]), MessageComplete];
    var a := Assembly([], [], true, [EntryFor([97], [98])], false);
    var b := a.(field := [116]);
    var c := b.(val := [117]);
    OnCallsConcat(ACCEPTED, first, trailer + last);
    LastHeader(ACCEPTED, [97], [98]);
    assert trailer + last == [Field([116])] + ([Value([117])] + ([MessageComplete] + last));
    OneCall(a, Field([116]), [Value([117])] + ([MessageComplete] + last));
    OneCall(b, Value([117]), [MessageComplete] + last);
    OneCall(c, MessageComplete, last);
    LastHeader(c.(puts := []), [99], [100]);
    assert first + (trailer + last) ==
      [Field([97]), Value([98]), HeadersComplete, Field([116]), Value([117]), MessageComplete, Field([99]), Value([100]), HeadersComplete];
    TrailerEntries();
    assert [] + [EntryFor([97], [98])] == [EntryFor([97], [98])];
    assert [] + [116] == [116] && [] + [117] == [117];
    assert [] + [EntryFor([116], [117]), EntryFor([99], [100])] == [EntryFor([116], [117]), EntryFor([99], [100])];
  }

  lemma TrailerEntries()
    ensures PutsOf([116], [117], [Header([99], [100])]) == [EntryFor([116], [117]), EntryFor([99], [100])]
    ensures PutsOf([], [], [Header([97], [98])]) == [EntryFor([97], [98])]
  {
    hide EntryFor;
    assert [Header([99], [100])][1..] == [] && [Header([97], [98])][1..] == [];
    assert [] + [97] == [97] && [] + [98] == [98];
    assert PutsOf([99], [100], []) == [EntryFor([99], [100])] && PutsOf([97], [98], []) == [EntryFor([97], [98])];
  }
}
