/** What a WebSocket connection does with the bytes it receives, as a function of the whole
    stream: dispatch of frames, fragment reassembly, pongs and the closing handshake
    (sections 5.4 and 5.5 of RFC 6455). */
module WsSession {
  import opened Bytes
  import opened WsFrame

  datatype ConnState = Open | Closing | Closed

  datatype Event =
    | Message(op: opcode, data: seq<byte>)
    | Ping(data: seq<byte>)
    | Pong(data: seq<byte>)
    | Sent(bytes: seq<byte>)
    | Shut

  /** rbuf holds received bytes not yet taken as a frame, frag and fragOp the fragments of an
      unfinished message. */
  datatype Session = Session(state: ConnState, rbuf: seq<byte>, frag: seq<byte>, fragOp: opcode,
                             waitingPong: bool, log: seq<Event>)

  function Ascii(s: string): (b: seq<byte>)
    requires forall i :: 0 <= i < |s| ==> s[i] < 128 as char
    ensures |b| == |s|
  {
    seq(|s|, i requires 0 <= i < |s| => s[i] as int)
  }

  const FRAME_TOO_LARGE := Ascii("Frame too large")
  const INVALID_OPCODE := Ascii("Invalid opcode")

  /** The frame laure_ws_close sends: the code in network order and the reason as a C string. */
  function CloseFrame(code: nat, reason: seq<byte>): Frame {
    Frame(true, OP_CLOSE, BigEndian(code, 2) + Terminated(reason))
  }

  /** laure_ws_send's wire form of a frame. */
  function Wire(f: Frame): seq<byte>
    requires |f.payload| < UINT64_RANGE
  {
    Unmasked(f, LowByteFirst)
  }

  /** laure_ws_close followed by laure_conn_close: only an open connection says goodbye. */
  function CloseWith(c: Session, code: nat, reason: seq<byte>): Session
    requires |reason| <= MAX_FRAME
  {
    var goodbye := if c.state.Open? then [Sent(Wire(CloseFrame(code, reason)))] else [];
    c.(state := Closed, log := c.log + if c.state.Closed? then [] else goodbye + [Shut])
  }

  function OnFrame(c: Session, f: Frame): Session
    requires |f.payload| <= MAX_FRAME
  {
    if f.op == OP_TEXT || f.op == OP_BINARY then
      if f.fin then c.(log := c.log + [Message(f.op, f.payload)])
      else c.(frag := c.frag + f.payload, fragOp := if c.fragOp == 0 then f.op else c.fragOp)
    else if f.op == OP_CONT then
      if f.fin then c.(frag := [], fragOp := 0, log := c.log + [Message(c.fragOp, c.frag + f.payload)])
      else c.(frag := c.frag + f.payload)
    else if f.op == OP_PING then
      c.(log := c.log + [Sent(Wire(Frame(true, OP_PONG, f.payload))), Ping(f.payload)])
    else if f.op == OP_PONG then
      c.(waitingPong := false, log := c.log + [Pong(f.payload)])
    else if f.op == OP_CLOSE then
      if |f.payload| >= 2 then CloseWith(c, Value(f.payload[..2]), f.payload[2..]) else CloseWith(c, 1000, [])
    else
      CloseWith(c, 1002, INVALID_OPCODE)
  }

  lemma ParsedPayloadFits(buf: seq<byte>)
    requires Parse(buf).Got?
    ensures |Parse(buf).frame.payload| <= MAX_FRAME
  {
  }

  /** Take frames off the buffer until it holds no complete frame or the connection is closed. */
  function Drain(c: Session): Session
    decreases |c.rbuf|
  {
    if c.state.Closed? then c
    else
      match Parse(c.rbuf)
      case NeedMore => c
      case TooLarge => CloseWith(c, 1009, FRAME_TOO_LARGE)
      case Got(f, total) => ParsedPayloadFits(c.rbuf); Drain(OnFrame(c.(rbuf := c.rbuf[total..]), f))
  }

  /** Bytes left in the buffer of a closed connection are never looked at again. */
  function Settled(c: Session): Session {
    if c.state.Closed? then c.(rbuf := []) else c
  }

  /** dispatch_plain for a WebSocket connection: every arrival counts as a sign of life, a closed
      connection ignores its data. */
  function Receive(c: Session, data: seq<byte>): Session {
    var c := c.(waitingPong := false);
    if c.state.Closed? then Settled(c) else Settled(Drain(c.(rbuf := c.rbuf + data)))
  }

  function ReceiveAll(c: Session, pieces: seq<seq<byte>>): Session
    decreases |pieces|
  {
    if pieces == [] then c else ReceiveAll(Receive(c, pieces[0]), pieces[1..])
  }

  /* ---- the stream may be cut anywhere ---------------------------------------------------- */

  lemma OnFrameKeepsBuffer(c: Session, f: Frame, rbuf: seq<byte>)
    requires |f.payload| <= MAX_FRAME
    ensures OnFrame(c.(rbuf := rbuf), f) == OnFrame(c, f).(rbuf := rbuf)
  {
  }

  /** Draining what has arrived and then the rest is draining everything. */
  lemma {:induction false} DrainInTwo(c: Session, more: seq<byte>)
    requires !c.state.Closed?
    ensures Settled(Drain(c.(rbuf := c.rbuf + more)))
         == if Drain(c).state.Closed? then Settled(Drain(c)) else Settled(Drain(Drain(c).(rbuf := Drain(c).rbuf + more)))
    decreases |c.rbuf|
  {
    var d := c.(rbuf := c.rbuf + more);
    match Parse(c.rbuf)
    case NeedMore =>
    case TooLarge =>
      ParseIsStable(c.rbuf, more);
    case Got(f, total) =>
      ParseIsStable(c.rbuf, more);
      ParsedPayloadFits(c.rbuf);
      var c1 := OnFrame(c.(rbuf := c.rbuf[total..]), f);
      var d1 := OnFrame(d.(rbuf := d.rbuf[total..]), f);
      assert d.rbuf[total..] == c.rbuf[total..] + more;
      OnFrameKeepsBuffer(c, f, c.rbuf[total..]);
      OnFrameKeepsBuffer(c, f, d.rbuf[total..]);
      assert d1 == c1.(rbuf := c1.rbuf + more);
      if !c1.state.Closed? {
        DrainInTwo(c1, more);
      }
  }

  lemma {:induction false} DrainKeepsNoWait(c: Session)
    requires !c.waitingPong
    ensures !Drain(c).waitingPong
    decreases |c.rbuf|
  {
    if !c.state.Closed? && Parse(c.rbuf).Got? {
      ParsedPayloadFits(c.rbuf);
      DrainKeepsNoWait(OnFrame(c.(rbuf := c.rbuf[Parse(c.rbuf).total..]), Parse(c.rbuf).frame));
    }
  }

  /** Split invariance: two deliveries are one. */
  lemma ReceiveInTwo(c: Session, a: seq<byte>, b: seq<byte>)
    ensures Receive(Receive(c, a), b) == Receive(c, a + b)
  {
    var c0 := c.(waitingPong := false);
    if c.state.Closed? {
      SecondDelivery(c0, b);
    } else {
      var ca := c0.(rbuf := c0.rbuf + a);
      assert ca.rbuf + b == c0.rbuf + (a + b);
      FirstDelivery(c0, a, b);
      SecondDelivery(Drain(ca), b);
    }
  }

  lemma FirstDelivery(c: Session, a: seq<byte>, b: seq<byte>)
    requires !c.state.Closed? && !c.waitingPong
    ensures var d := Drain(c.(rbuf := c.rbuf + a));
      && !d.waitingPong
      && Settled(Drain(c.(rbuf := c.rbuf + a + b)))
      == if d.state.Closed? then Settled(d) else Settled(Drain(d.(rbuf := d.rbuf + b)))
  {
    var ca := c.(rbuf := c.rbuf + a);
    DrainInTwo(ca, b);
    DrainKeepsNoWait(ca);
    assert ca.(rbuf := ca.rbuf + b) == c.(rbuf := c.rbuf + a + b);
  }

  lemma SecondDelivery(d: Session, b: seq<byte>)
    requires !d.waitingPong
    ensures Receive(Settled(d), b)
         == if d.state.Closed? then Settled(d) else Settled(Drain(d.(rbuf := d.rbuf + b)))
  {
    assert d.(waitingPong := false) == d;
  }

  /** However the stream is cut, the session ends with the same messages, pongs, close frames
      and buffers as when it arrives whole. */
  lemma {:induction false} SplitInvariance(c: Session, pieces: seq<seq<byte>>)
    requires pieces != []
    ensures ReceiveAll(c, pieces) == Receive(c, Flatten(pieces))
    decreases |pieces|
  {
    var first, rest := pieces[0], pieces[1..];
    if rest == [] {
      assert Flatten(pieces) == first + Flatten(rest) == first;
    } else {
      SplitInvariance(Receive(c, first), rest);
      ReceiveInTwo(c, first, Flatten(rest));
    }
  }

  /* ---- from wire frames to dispatched frames --------------------------------------------- */

  ghost predicate Fits(fs: seq<Frame>) {
    forall i :: 0 <= i < |fs| ==> |fs[i].payload| <= MAX_FRAME
  }

  /** Dispatch of a list of frames; a close ends it. */
  function OnFrames(c: Session, fs: seq<Frame>): Session
    requires Fits(fs)
    decreases |fs|
  {
    if fs == [] || c.state.Closed? then c else OnFrames(OnFrame(c, fs[0]), fs[1..])
  }

  /** Each frame with its own mask key, one after the other. */
  function MaskedStream(fs: seq<Frame>, keys: seq<MaskKey>): seq<byte>
    requires |keys| == |fs| && Fits(fs)
  {
    if fs == [] then [] else MaskedFrame(fs[0], keys[0], Network) + MaskedStream(fs[1..], keys[1..])
  }

  lemma {:induction false} DrainsStream(c: Session, fs: seq<Frame>, keys: seq<MaskKey>)
    requires |keys| == |fs| && Fits(fs) && c.rbuf == MaskedStream(fs, keys)
    ensures Settled(Drain(c)) == Settled(OnFrames(c.(rbuf := []), fs))
    decreases |fs|
  {
    if fs != [] && !c.state.Closed? {
      var wire, rest := MaskedFrame(fs[0], keys[0], Network), MaskedStream(fs[1..], keys[1..]);
      MaskedRoundTrip(fs[0], keys[0], rest);
      assert c.rbuf[|wire|..] == rest;
      OnFrameKeepsBuffer(c, fs[0], rest);
      OnFrameKeepsBuffer(c, fs[0], []);
      DrainsStream(OnFrame(c.(rbuf := rest), fs[0]), fs[1..], keys[1..]);
    }
  }

  /** A client's masked frames, under any keys and cut in any way, are dispatched as exactly the
      frames it meant. */
  lemma StreamDelivers(c: Session, fs: seq<Frame>, keys: seq<MaskKey>, pieces: seq<seq<byte>>)
    requires |keys| == |fs| && Fits(fs) && c.rbuf == [] && !c.state.Closed?
    requires pieces != [] && Flatten(pieces) == MaskedStream(fs, keys)
    ensures ReceiveAll(c, pieces) == Settled(OnFrames(c.(waitingPong := false), fs))
  {
    SplitInvariance(c, pieces);
    var c0 := c.(waitingPong := false);
    var bytes := MaskedStream(fs, keys);
    assert c0.rbuf + bytes == bytes;
    DrainsStream(c0.(rbuf := bytes), fs, keys);
    assert c0.(rbuf := []) == c0;
  }

  /* ---- fragmentation --------------------------------------------------------------------- */

  ghost predicate Control(f: Frame) {
    f.op == OP_PING || f.op == OP_PONG
  }

  /** fs is the tail of a fragmented message: continuation frames with pings and pongs between
      them, ending with the final continuation frame. */
  ghost predicate Continues(fs: seq<Frame>) {
    fs != [] &&
    if Control(fs[0]) then Continues(fs[1..])
    else fs[0].op == OP_CONT && if fs[0].fin then |fs| == 1 else Continues(fs[1..])
  }

  /** fs carries one message of type op, whole or fragmented, with pings and pongs anywhere. */
  ghost predicate Carries(fs: seq<Frame>, op: opcode) {
    fs != [] &&
    if Control(fs[0]) then Carries(fs[1..], op)
    else fs[0].op == op && if fs[0].fin then |fs| == 1 else Continues(fs[1..])
  }

  /** The message's content: the payloads of the frames that are not control frames. */
  ghost function Content(fs: seq<Frame>): seq<byte> {
    if fs == [] then [] else (if Control(fs[0]) then [] else fs[0].payload) + Content(fs[1..])
  }

  /** What one frame, if it is a control frame, and all control frames of fs leave in the log. */
  ghost function ControlEvent(f: Frame): seq<Event>
    requires |f.payload| <= MAX_FRAME
  {
    if f.op == OP_PING then [Sent(Wire(Frame(true, OP_PONG, f.payload))), Ping(f.payload)]
    else if f.op == OP_PONG then [Pong(f.payload)] else []
  }

  ghost function ControlEvents(fs: seq<Frame>): seq<Event>
    requires Fits(fs)
  {
    if fs == [] then [] else ControlEvent(fs[0]) + ControlEvents(fs[1..])
  }

  lemma ControlStep(c: Session, f: Frame)
    requires |f.payload| <= MAX_FRAME && Control(f) && !c.waitingPong
    ensures OnFrame(c, f) == c.(log := c.log + ControlEvent(f))
  {
  }

  lemma DataStep(c: Session, f: Frame)
    requires |f.payload| <= MAX_FRAME && f.op in {OP_CONT, OP_TEXT, OP_BINARY}
    ensures ControlEvent(f) == []
    ensures !f.fin ==> OnFrame(c, f) == c.(frag := c.frag + f.payload,
                                           fragOp := if f.op != OP_CONT && c.fragOp == 0 then f.op else c.fragOp)
    ensures f.fin && f.op == OP_CONT ==>
      OnFrame(c, f) == c.(frag := [], fragOp := 0, log := c.log + [Message(c.fragOp, c.frag + f.payload)])
    ensures f.fin && f.op != OP_CONT ==> OnFrame(c, f) == c.(log := c.log + [Message(f.op, f.payload)])
  {
  }

  /** The session after the rest of a fragmented message. */
  ghost function Finished(c: Session, fs: seq<Frame>): Session
    requires Fits(fs)
  {
    c.(frag := [], fragOp := 0, log := c.log + ControlEvents(fs) + [Message(c.fragOp, c.frag + Content(fs))])
  }

  lemma {:induction false} TailReassembles(c: Session, fs: seq<Frame>)
    requires Fits(fs) && Continues(fs) && !c.state.Closed? && !c.waitingPong
    ensures OnFrames(c, fs) == Finished(c, fs)
    decreases |fs|
  {
    var f, rest := fs[0], fs[1..];
    var c1 := OnFrame(c, f);
    assert OnFrames(c, fs) == OnFrames(c1, rest);
    assert ControlEvents(fs) == ControlEvent(f) + ControlEvents(rest);
    if Control(f) {
      ControlStep(c, f);
      TailReassembles(c1, rest);
      assert c1.log + ControlEvents(rest) == c.log + ControlEvents(fs);
      assert Content(fs) == Content(rest);
    } else {
      DataStep(c, f);
      if f.fin {
        assert rest == [] && Content(fs) == f.payload && ControlEvents(fs) == [];
        assert c.log + [] == c.log;
      } else {
        TailReassembles(c1, rest);
        assert ControlEvents(fs) == ControlEvents(rest);
        assert c1.frag + Content(rest) == c.frag + Content(fs);
      }
    }
  }

  /** Section 5.4: one message in any fragments, with pings and pongs interleaved, is delivered
      once, whole, under the type of its first fragment, and leaves no fragment behind. */
  lemma {:induction false} MessageReassembles(c: Session, fs: seq<Frame>, op: opcode)
    requires Fits(fs) && Carries(fs, op) && op in {OP_TEXT, OP_BINARY}
    requires !c.state.Closed? && !c.waitingPong && c.frag == [] && c.fragOp == 0
    ensures OnFrames(c, fs) == c.(log := c.log + ControlEvents(fs) + [Message(op, Content(fs))])
    decreases |fs|
  {
    var f, rest := fs[0], fs[1..];
    var c1 := OnFrame(c, f);
    assert OnFrames(c, fs) == OnFrames(c1, rest);
    assert ControlEvents(fs) == ControlEvent(f) + ControlEvents(rest);
    if Control(f) {
      ControlStep(c, f);
      MessageReassembles(c1, rest, op);
      assert c1.log + ControlEvents(rest) == c.log + ControlEvents(fs);
      assert Content(fs) == Content(rest);
    } else {
      DataStep(c, f);
      if f.fin {
        assert rest == [] && Content(fs) == f.payload && ControlEvents(fs) == [];
        assert c.log + [] == c.log;
      } else {
        TailReassembles(c1, rest);
        assert ControlEvents(fs) == ControlEvents(rest);
        assert c1.frag + Content(rest) == Content(fs);
      }
    }
  }

  lemma {:induction false} OnFramesConcat(c: Session, a: seq<Frame>, b: seq<Frame>)
    requires Fits(a) && Fits(b)
    ensures Fits(a + b) && OnFrames(c, a + b) == OnFrames(OnFrames(c, a), b)
    decreases |a|
  {
    if a == [] {
      assert a + b == b;
    } else {
      assert (a + b)[1..] == a[1..] + b;
      if !c.state.Closed? {
        OnFramesConcat(OnFrame(c, a[0]), a[1..], b);
      }
    }
  }

  /** A message as the client meant it, with the frames that carry it. */
  datatype Sending = Sending(op: opcode, frames: seq<Frame>)

  ghost predicate WellFormed(ms: seq<Sending>) {
    forall i :: 0 <= i < |ms| ==> Fits(ms[i].frames) && Carries(ms[i].frames, ms[i].op) && ms[i].op in {OP_TEXT, OP_BINARY}
  }

  function AllFrames(ms: seq<Sending>): seq<Frame> {
    if ms == [] then [] else ms[0].frames + AllFrames(ms[1..])
  }

  /** What one message, and a list of them, must leave in the log. */
  ghost function MessageEvents(m: Sending): seq<Event>
    requires Fits(m.frames)
  {
    ControlEvents(m.frames) + [Message(m.op, Content(m.frames))]
  }

  ghost function AllEvents(ms: seq<Sending>): seq<Event>
    requires WellFormed(ms)
  {
    if ms == [] then [] else MessageEvents(ms[0]) + AllEvents(ms[1..])
  }

  function Logged(c: Session, evs: seq<Event>): Session {
    c.(log := c.log + evs)
  }

  lemma LoggedTwice(c: Session, a: seq<Event>, b: seq<Event>)
    ensures Logged(Logged(c, a), b) == Logged(c, a + b)
  {
    assert c.log + a + b == c.log + (a + b);
  }

  lemma {:induction false} AllFramesFit(ms: seq<Sending>)
    requires WellFormed(ms)
    ensures Fits(AllFrames(ms))
  {
    if ms != [] {
      AllFramesFit(ms[1..]);
    }
  }

  lemma {:induction false} MessagesReassemble(c: Session, ms: seq<Sending>)
    requires WellFormed(ms)
    requires !c.state.Closed? && !c.waitingPong && c.frag == [] && c.fragOp == 0
    ensures Fits(AllFrames(ms)) && OnFrames(c, AllFrames(ms)) == Logged(c, AllEvents(ms))
    decreases |ms|
  {
    AllFramesFit(ms);
    if ms == [] {
      assert c.log + [] == c.log;
    } else {
      AllFramesFit(ms[1..]);
      OnFramesConcat(c, ms[0].frames, AllFrames(ms[1..]));
      OneMessage(c, ms[0]);
      MessagesReassemble(Logged(c, MessageEvents(ms[0])), ms[1..]);
      LoggedTwice(c, MessageEvents(ms[0]), AllEvents(ms[1..]));
    }
  }

  lemma OneMessage(c: Session, m: Sending)
    requires Fits(m.frames) && Carries(m.frames, m.op) && m.op in {OP_TEXT, OP_BINARY}
    requires !c.state.Closed? && !c.waitingPong && c.frag == [] && c.fragOp == 0
    ensures OnFrames(c, m.frames) == Logged(c, MessageEvents(m))
  {
    MessageReassembles(c, m.frames, m.op);
    assert c.log + ControlEvents(m.frames) + [Message(m.op, Content(m.frames))] == c.log + MessageEvents(m);
  }

  /** End to end: any well-formed stream of messages, each in any fragments with control frames
      between them, masked under any keys and arriving in any pieces, is delivered message by
      message and leaves the session ready for the next one. */
  lemma ConversationDelivers(c: Session, ms: seq<Sending>, keys: seq<MaskKey>, pieces: seq<seq<byte>>)
    requires WellFormed(ms) && |keys| == |AllFrames(ms)| && Fits(AllFrames(ms))
    requires pieces != [] && Flatten(pieces) == MaskedStream(AllFrames(ms), keys)
    requires c.state.Open? && c.rbuf == [] && c.frag == [] && c.fragOp == 0
    ensures ReceiveAll(c, pieces) == Logged(c.(waitingPong := false), AllEvents(ms))
  {
    StreamDelivers(c, AllFrames(ms), keys, pieces);
    MessagesReassemble(c.(waitingPong := false), ms);
  }

  /* ---- the closing handshake, in bytes ------------------------------------------------------ */

  /** The header of a control frame the source sends, with its final bit and a payload of n bytes. */
  function ControlHead(first: byte, n: nat): seq<byte>
    requires n < UINT64_RANGE
  {
    if n < 126 then [first, n]
    else if n < 65536 then [first, 126, n / 256, n % 256]
    else [first, 127] + LittleEndian(n, 8)
  }

  lemma WireBytes(op: opcode, payload: seq<byte>)
    requires |payload| < UINT64_RANGE
    ensures Wire(Frame(true, op, payload)) == ControlHead(128 + op, |payload|) + payload
  {
    if 126 <= |payload| < 65536 {
      TwoBytes(|payload|);
    }
  }

  lemma CodeBytes(a: byte, b: byte)
    ensures BigEndian(Value([a, b]), 2) == [a, b]
  {
    assert [a, b][..1] == [a] && [a][..0] == [];
    assert Value([a]) == a && Value([a, b]) == 256 * a + b;
    TwoBytes(256 * a + b);
  }

  /** A C string is what comes before its first NUL. */
  lemma TerminatedIs(s: seq<byte>, r: nat)
    requires r <= |s| && NUL !in s[..r] && (r == |s| || s[r] == NUL)
    ensures Terminated(s) == s[..r]
  {
    assert forall i :: 0 <= i < r ==> s[..r][i] == s[i];
  }

  /** A close frame with a code, on an open connection: the answer has the same code and the reason up to
      its first NUL, r bytes of it, and the connection is shut. */
  lemma CloseIsAnswered(c: Session, fin: bool, payload: seq<byte>, r: nat)
    requires c.state.Open? && |payload| <= MAX_FRAME
    requires 2 + r <= |payload| && NUL !in payload[2..2 + r] && (2 + r == |payload| || payload[2 + r] == NUL)
    ensures OnFrame(c, Frame(fin, 8, payload)) ==
            c.(state := Closed, log := c.log + [Sent(ControlHead(136, 2 + r) + payload[..2 + r]), Shut])
  {
    hide Value, BigEndian, LittleEndian;
    var code, reason := payload[..2], payload[2..];
    assert code == [payload[0], payload[1]];
    CodeBytes(payload[0], payload[1]);
    assert reason[..r] == payload[2..2 + r];
    TerminatedIs(reason, r);
    assert code + reason[..r] == payload[..2 + r];
    WireBytes(OP_CLOSE, payload[..2 + r]);
    GoodbyeIs(c, Value(code), reason, ControlHead(136, 2 + r) + payload[..2 + r]);
  }

  lemma GoodbyeIs(c: Session, code: nat, reason: seq<byte>, wire: seq<byte>)
    requires |reason| <= MAX_FRAME && c.state.Open? && wire == Wire(CloseFrame(code, reason))
    ensures CloseWith(c, code, reason) == c.(state := Closed, log := c.log + [Sent(wire), Shut])
  {
    hide Wire, CloseFrame;
    assert [Sent(wire)] + [Shut] == [Sent(wire), Shut];
  }

  /** Without a code the answer says 1000. */
  lemma ShortCloseIsAnswered(c: Session, fin: bool, payload: seq<byte>)
    requires c.state.Open? && |payload| < 2
    ensures OnFrame(c, Frame(fin, 8, payload)) == c.(state := Closed, log := c.log + [Sent([136, 2, 3, 232]), Shut])
  {
    TwoBytes(1000);
    assert [3, 232] + [] == [3, 232];
    WireBytes(OP_CLOSE, [3, 232]);
    assert ControlHead(136, 2) + [3, 232] == [136, 2, 3, 232];
    GoodbyeIs(c, 1000, [], [136, 2, 3, 232]);
  }

  /** The answer to our own goodbye only shuts the connection. */
  lemma GoodbyeIsOver(c: Session, fin: bool, payload: seq<byte>)
    requires c.state.Closing? && |payload| <= MAX_FRAME
    ensures OnFrame(c, Frame(fin, 8, payload)) == c.(state := Closed, log := c.log + [Shut])
  {
    hide Wire, CloseFrame;
    assert [] + [Shut] == [Shut];
  }

  /** An opcode without a meaning is answered with 1002 "Invalid opcode". */
  lemma BadOpcodeIsRefused(c: Session, f: Frame)
    requires c.state.Open? && |f.payload| <= MAX_FRAME && f.op !in {0, 1, 2, 8, 9, 10}
    ensures OnFrame(c, f) == c.(state := Closed,
      log := c.log + [Sent([136, 16, 3, 234, 73, 110, 118, 97, 108, 105, 100, 32, 111, 112, 99, 111, 100, 101]), Shut])
  {
    hide Wire, CloseFrame, CloseWith;
    TwoBytes(1002);
    var reason := [73, 110, 118, 97, 108, 105, 100, 32, 111, 112, 99, 111, 100, 101];
    assert INVALID_OPCODE == reason;
    RefusalBytes(1002, reason);
    var wire := [136, 16, 3, 234, 73, 110, 118, 97, 108, 105, 100, 32, 111, 112, 99, 111, 100, 101];
    assert [136, 16] + [3, 234] + reason == wire;
    GoodbyeIs(c, 1002, reason, wire);
  }

  /** A frame over the limit is answered with 1009 "Frame too large". */
  lemma LargeFrameIsRefused(c: Session)
    requires c.state.Open? && Parse(c.rbuf).TooLarge?
    ensures Drain(c) == c.(state := Closed,
      log := c.log + [Sent([136, 17, 3, 241, 70, 114, 97, 109, 101, 32, 116, 111, 111, 32, 108, 97, 114, 103, 101]), Shut])
  {
    hide Wire, CloseFrame, CloseWith, Parse;
    TwoBytes(1009);
    var reason := [70, 114, 97, 109, 101, 32, 116, 111, 111, 32, 108, 97, 114, 103, 101];
    assert FRAME_TOO_LARGE == reason;
    RefusalBytes(1009, reason);
    var wire := [136, 17, 3, 241, 70, 114, 97, 109, 101, 32, 116, 111, 111, 32, 108, 97, 114, 103, 101];
    assert [136, 17] + [3, 241] + reason == wire;
    GoodbyeIs(c, 1009, reason, wire);
  }

  lemma RefusalBytes(code: nat, reason: seq<byte>)
    requires NUL !in reason && |reason| < 100
    ensures Wire(CloseFrame(code, reason)) == [136, 2 + |reason|] + BigEndian(code, 2) + reason
  {
    WireBytes(OP_CLOSE, BigEndian(code, 2) + reason);
  }

  /** A ping is answered with its own payload before the application hears of it. */
  lemma PingIsAnswered(c: Session, fin: bool, payload: seq<byte>)
    requires |payload| <= MAX_FRAME
    ensures OnFrame(c, Frame(fin, 9, payload)) ==
            c.(log := c.log + [Sent(ControlHead(138, |payload|) + payload), Ping(payload)])
    ensures OnFrame(c, Frame(fin, 10, payload)) == c.(waitingPong := false, log := c.log + [Pong(payload)])
  {
    WireBytes(OP_PONG, payload);
  }

  lemma {:induction false} DrainsToClose(c: Session, fs: seq<Frame>, keys: seq<MaskKey>, rest: seq<byte>)
    requires |keys| == |fs| && Fits(fs) && c.rbuf == MaskedStream(fs, keys) + rest
    requires OnFrames(c.(rbuf := []), fs).state.Closed?
    ensures Settled(Drain(c)) == Settled(OnFrames(c.(rbuf := []), fs))
    decreases |fs|
  {
    if fs != [] && !c.state.Closed? {
      var wire, more := MaskedFrame(fs[0], keys[0], Network), MaskedStream(fs[1..], keys[1..]) + rest;
      assert c.rbuf == wire + more;
      MaskedRoundTrip(fs[0], keys[0], more);
      assert c.rbuf[|wire|..] == more;
      OnFrameKeepsBuffer(c, fs[0], more);
      OnFrameKeepsBuffer(c, fs[0], []);
      DrainsToClose(OnFrame(c.(rbuf := more), fs[0]), fs[1..], keys[1..], rest);
    }
  }

  /** A conversation that the peer ends with a close frame: every message is delivered, the goodbye is
      answered with its code and reason, the connection is shut, and whatever follows is ignored. */
  lemma ConversationCloses(c: Session, ms: seq<Sending>, keys: seq<MaskKey>, payload: seq<byte>, r: nat, key: MaskKey,
                           rest: seq<byte>, pieces: seq<seq<byte>>)
    requires WellFormed(ms) && |keys| == |AllFrames(ms)| && Fits(AllFrames(ms)) && |payload| <= MAX_FRAME
    requires 2 + r <= |payload| && NUL !in payload[2..2 + r] && (2 + r == |payload| || payload[2 + r] == NUL)
    requires pieces != []
    requires Flatten(pieces) == MaskedStream(AllFrames(ms), keys) + (MaskedFrame(Frame(true, 8, payload), key, Network) + rest)
    requires c.state.Open? && c.rbuf == [] && c.frag == [] && c.fragOp == 0
    ensures ReceiveAll(c, pieces) ==
            Logged(c.(waitingPong := false, state := Closed), AllEvents(ms) + [Sent(ControlHead(136, 2 + r) + payload[..2 + r]), Shut])
  {
    hide OnFrames, ControlHead, MaskedStream, MaskedFrame, AllFrames, AllEvents;
    var last, fs := Frame(true, 8, payload), AllFrames(ms);
    StreamEnds(fs, keys, last, key);
    assert Flatten(pieces) == MaskedStream(fs + [last], keys + [key]) + rest;
    FramesClose(c.(waitingPong := false), ms, payload, r);
    StreamCloses(c, fs + [last], keys + [key], rest, pieces);
  }

  /** Masked frames that end in a close, in any pieces and with anything after them. */
  lemma StreamCloses(c: Session, fs: seq<Frame>, keys: seq<MaskKey>, rest: seq<byte>, pieces: seq<seq<byte>>)
    requires |keys| == |fs| && Fits(fs) && c.rbuf == [] && c.state.Open?
    requires pieces != [] && Flatten(pieces) == MaskedStream(fs, keys) + rest
    requires OnFrames(c.(waitingPong := false), fs).state.Closed?
    ensures ReceiveAll(c, pieces) == Settled(OnFrames(c.(waitingPong := false), fs))
  {
    hide Drain, OnFrames, MaskedStream, ReceiveAll, Flatten;
    SplitInvariance(c, pieces);
    var c0, bytes := c.(waitingPong := false), Flatten(pieces);
    assert c0.rbuf + bytes == bytes && c0.(rbuf := []) == c0;
    DrainsToClose(c0.(rbuf := bytes), fs, keys, rest);
  }

  lemma FramesClose(c: Session, ms: seq<Sending>, payload: seq<byte>, r: nat)
    requires WellFormed(ms) && Fits(AllFrames(ms)) && |payload| <= MAX_FRAME
    requires 2 + r <= |payload| && NUL !in payload[2..2 + r] && (2 + r == |payload| || payload[2 + r] == NUL)
    requires c.state.Open? && !c.waitingPong && c.frag == [] && c.fragOp == 0
    ensures Fits(AllFrames(ms) + [Frame(true, 8, payload)])
    ensures OnFrames(c, AllFrames(ms) + [Frame(true, 8, payload)]) ==
            Logged(c.(state := Closed), AllEvents(ms) + [Sent(ControlHead(136, 2 + r) + payload[..2 + r]), Shut])
  {
    hide OnFrames, OnFrame, ControlHead, AllFrames, AllEvents;
    var last, d := Frame(true, 8, payload), Logged(c, AllEvents(ms));
    MessagesReassemble(c, ms);
    OnFramesConcat(c, AllFrames(ms), [last]);
    CloseIsAnswered(d, true, payload, r);
    OneFrame(d, last);
    var answer := [Sent(ControlHead(136, 2 + r) + payload[..2 + r]), Shut];
    assert c.log + AllEvents(ms) + answer == c.log + (AllEvents(ms) + answer);
  }

  lemma OneFrame(c: Session, f: Frame)
    requires |f.payload| <= MAX_FRAME && !c.state.Closed?
    ensures OnFrames(c, [f]) == OnFrame(c, f)
  {
    assert [f][1..] == [];
  }

  lemma {:induction false} StreamEnds(fs: seq<Frame>, keys: seq<MaskKey>, f: Frame, key: MaskKey)
    requires |keys| == |fs| && Fits(fs) && |f.payload| <= MAX_FRAME
    ensures Fits(fs + [f]) && MaskedStream(fs + [f], keys + [key]) == MaskedStream(fs, keys) + MaskedFrame(f, key, Network)
    decreases |fs|
  {
    hide MaskedFrame;
    if fs == [] {
      assert fs + [f] == [f] && keys + [key] == [key] && [f][1..] == [] && [key][1..] == [];
    } else {
      StreamEnds(fs[1..], keys[1..], f, key);
      assert (fs + [f])[1..] == fs[1..] + [f] && (keys + [key])[1..] == keys[1..] + [key];
    }
  }
}
