/** The connection object's WebSocket side: laure_ws_on_data, laure_ws_close, laure_ws_ping,
    laure_ws_pong and the guards around them, each proved against the stream semantics of
    WsSession. User callbacks are passive recorders. */
module WsConn {
  import opened Buf
  import opened Bytes
  import opened Heartbeat
  import opened WsFrame
  import opened WsSession

  class Conn {
    var state: ConnState
    const rbuf: Buffer
    const fragBuf: Buffer
    var fragOpcode: opcode
    var hbWaitingPong: bool
    var hbLastPong: nat
    const cfg: Config
    var hbActive: bool
    var hbTimer: Timer
    /** Bytes handed to the socket and callbacks made, in order. */
    var log: seq<Event>

    ghost function Repr(): set<object>
      reads this, rbuf, fragBuf
    {
      {this} + rbuf.Repr() + fragBuf.Repr()
    }

    ghost predicate Valid()
      reads this, rbuf, fragBuf, rbuf.Repr(), fragBuf.Repr()
    {
      && rbuf.Valid() && fragBuf.Valid()
      && rbuf.Repr() !! fragBuf.Repr() && this !in rbuf.Repr() && this !in fragBuf.Repr()
    }

    /** The connection's state as a session, with every byte still in the read buffer. */
    ghost function Raw(): Session
      requires Valid()
      reads this, rbuf, fragBuf, rbuf.Repr(), fragBuf.Repr()
    {
      Session(state, rbuf.Contents(), fragBuf.Contents(), fragOpcode, hbWaitingPong, log)
    }

    /** The connection's state as the heartbeat sees it. */
    function Pulse(): Hb
      reads this
    {
      Hb(state, hbActive, hbWaitingPong, hbTimer)
    }

    constructor (cfg: Config)
      ensures Valid() && fresh(Repr()) && this.cfg == cfg
      ensures Raw() == Session(Open, [], [], 0, false, [])
      ensures Pulse() == Hb(Open, false, false, Off)
    {
      this.cfg := cfg;
      state, fragOpcode, hbWaitingPong, hbLastPong, log := Open, 0, false, 0, [];
      hbActive, hbTimer := false, Off;
      rbuf := new Buffer();
      fragBuf := new Buffer();
    }

    /** laure_conn_send_raw */
    method SendRaw(bytes: seq<byte>)
      modifies this`log
      ensures log == if state.Closed? || bytes == [] then old(log) else old(log) + [Sent(bytes)]
    {
      if state == Closed || |bytes| == 0 {
        return;
      }
      log := log + [Sent(bytes)];
    }

    /** laure_conn_close */
    method ConnClose()
      modifies this`state, this`log
      ensures state == Closed
      ensures log == if old(state).Closed? then old(log) else old(log) + [Shut]
    {
      if state == Closed {
        return;
      }
      state := Closed;
      log := log + [Shut];
    }

    /** laure_ws_close: one close frame, from an open connection only. */
    method WsClose(code: nat, reason: seq<byte>)
      requires |reason| <= MAX_FRAME
      modifies this`state, this`log
      ensures old(state).Open? ==> state == Closing && log == old(log) + [Sent(Wire(CloseFrame(code, reason)))]
      ensures !old(state).Open? ==> state == old(state) && log == old(log)
    {
      if state != Open {
        return;
      }
      var payload := BigEndian(code, 2) + Terminated(reason);
      var f := BuildFrame(payload, OP_CLOSE, true);
      SendRaw(f[..]);
      state := Closing;
    }

    method Goodbye(code: nat, reason: seq<byte>)
      requires Valid() && |reason| <= MAX_FRAME
      modifies this`state, this`log
      ensures Valid() && Raw() == CloseWith(old(Raw()), code, reason)
    {
      WsClose(code, reason);
      ConnClose();
    }

    /** laure_ws_ping and laure_ws_pong */
    method SendControl(op: opcode, payload: seq<byte>)
      requires |payload| <= MAX_FRAME
      modifies this`log
      ensures log == if state.Closed? then old(log) else old(log) + [Sent(Wire(Frame(true, op, payload)))]
    {
      var f := BuildFrame(payload, op, true);
      SendRaw(f[..]);
    }

    /** The length bytes of the header, most significant first. */
    method ReadLength(p: array<byte>, at: nat, count: nat) returns (plen: nat)
      requires at + count <= p.Length
      ensures plen == Value(p[at..at + count])
    {
      plen := 0;
      for i := 0 to count
        invariant plen == Value(p[at..at + i])
      {
        plen := plen * 256 + p[at + i];
        assert p[at..at + i + 1][..i] == p[at..at + i];
      }
    }

    /** The payload copied out and unmasked. */
    method ReadPayload(p: array<byte>, hlen: nat, plen: nat, masked: bool) returns (payload: array<byte>)
      requires hlen + plen <= p.Length && (masked ==> hlen >= 4)
      ensures fresh(payload) && payload.Length == plen
      ensures payload[..] == PayloadAt(p[..], if masked then hlen - 4 else hlen, masked, plen)
    {
      payload := new byte[plen];
      for i := 0 to plen
        invariant payload[..i] == p[hlen..hlen + i]
      {
        payload[i] := p[hlen + i];
      }
      assert payload[..] == p[hlen..hlen + plen];
      if masked {
        Unmask(payload, p, hlen - 4);
      }
    }

    /** The payload unmasked in place, with the key at `at`. */
    method Unmask(payload: array<byte>, p: array<byte>, at: nat)
      requires payload != p && at + 4 <= p.Length
      modifies payload
      ensures payload[..] == Masked(old(payload[..]), p[at..at + 4])
    {
      hide Xor;
      ghost var raw := payload[..];
      for i := 0 to payload.Length
        invariant forall j :: 0 <= j < i ==> payload[j] == Xor(raw[j], p[at + j % 4])
        invariant forall j :: i <= j < payload.Length ==> payload[j] == raw[j]
      {
        payload[i] := Xor(payload[i], p[at + i % 4]);
      }
      assert payload[..] == Masked(raw, p[at..at + 4]);
    }

    /** The header fields at the front of the read buffer. */
    method ReadHeader() returns (h: Header)
      requires Valid()
      ensures h == ParseHeader(rbuf.Contents())
    {
      if rbuf.len < 2 {
        return Short;
      }
      var p := rbuf.data;
      ghost var buf := rbuf.Contents();
      var masked := p[1] >= 128;
      var plen: nat, base := p[1] % 128, 2;
      if plen == 126 {
        if rbuf.len < 4 {
          return Short;
        }
        plen := ReadLength(p, 2, 2);
        assert p[2..4] == buf[2..4];
        base := 4;
      } else if plen == 127 {
        if rbuf.len < 10 {
          return Short;
        }
        plen := ReadLength(p, 2, 8);
        assert p[2..10] == buf[2..10];
        base := 10;
      }
      return Header(plen, base, masked);
    }

    /** The head of the loop in laure_ws_on_data: one frame, if the buffer starts with one. */
    method TryFrame() returns (r: Parsed)
      requires Valid()
      ensures r == Parse(rbuf.Contents())
    {
      var h := ReadHeader();
      if h.Short? {
        return NeedMore;
      }
      var Header(plen, base, masked) := h;
      var hlen := if masked then base + 4 else base;
      if plen > MAX_FRAME {
        return TooLarge;
      }
      var total := hlen + plen;
      if rbuf.len < total {
        return NeedMore;
      }
      var payload := TakePayload(base, masked, plen);
      return Got(Frame(rbuf.data[0] >= 128, rbuf.data[0] % 16, payload), total);
    }

    method TakePayload(base: nat, masked: bool, plen: nat) returns (payload: seq<byte>)
      requires Valid() && 0 < base && (if masked then base + 4 else base) + plen <= rbuf.len
      ensures payload == PayloadAt(rbuf.Contents(), base, masked, plen)
    {
      var p := rbuf.data;
      ghost var buf := rbuf.Contents();
      var copy := ReadPayload(p, if masked then base + 4 else base, plen, masked);
      assert p[..] == buf + p[rbuf.len..];
      PayloadIsStable(buf, p[rbuf.len..], base, masked, plen);
      payload := copy[..];
    }

    /** The switch over the opcode. */
    method OnFrame(f: Frame)
      requires Valid() && !state.Closed? && |f.payload| <= MAX_FRAME
      modifies this, fragBuf.Repr()
      ensures Valid() && fresh(Repr() - old(Repr())) && rbuf.Repr() == old(rbuf.Repr())
      ensures Pulse() == old(Pulse()).(state := state, waiting := hbWaitingPong)
      ensures Raw() == WsSession.OnFrame(old(Raw()), f)
    {
      if f.op == OP_TEXT || f.op == OP_BINARY {
        OnFirst(f);
      } else if f.op == OP_CONT {
        OnContinuation(f);
      } else if f.op == OP_PING {
        SendControl(OP_PONG, f.payload);
        log := log + [Ping(f.payload)];
      } else if f.op == OP_PONG {
        hbWaitingPong := false;
        log := log + [Pong(f.payload)];
      } else if f.op == OP_CLOSE {
        if |f.payload| >= 2 {
          Goodbye(Value(f.payload[..2]), f.payload[2..]);
        } else {
          Goodbye(1000, []);
        }
      } else {
        Goodbye(1002, INVALID_OPCODE);
      }
    }

    method OnFirst(f: Frame)
      requires Valid() && !state.Closed? && |f.payload| <= MAX_FRAME && f.op in {OP_TEXT, OP_BINARY}
      modifies this, fragBuf.Repr()
      ensures Valid() && fresh(Repr() - old(Repr())) && rbuf.Repr() == old(rbuf.Repr())
      ensures Pulse() == old(Pulse()).(state := state, waiting := hbWaitingPong)
      ensures Raw() == WsSession.OnFrame(old(Raw()), f)
    {
      if !f.fin {
        if fragOpcode == 0 {
          fragOpcode := f.op;
        }
        fragBuf.Append(f.payload);
      } else {
        log := log + [Message(f.op, f.payload)];
      }
    }

    method OnContinuation(f: Frame)
      requires Valid() && !state.Closed? && |f.payload| <= MAX_FRAME && f.op == OP_CONT
      modifies this, fragBuf.Repr()
      ensures Valid() && fresh(Repr() - old(Repr())) && rbuf.Repr() == old(rbuf.Repr())
      ensures Pulse() == old(Pulse()).(state := state, waiting := hbWaitingPong)
      ensures Raw() == WsSession.OnFrame(old(Raw()), f)
    {
      fragBuf.Append(f.payload);
      if f.fin {
        var message := if fragBuf.data == null then [] else fragBuf.data[..fragBuf.len];
        log := log + [Message(fragOpcode, message)];
        fragBuf.Reset();
        fragOpcode := 0;
      }
    }

    /** One round of the loop in laure_ws_on_data; it consumes at least two bytes or ends the
        loop. */
    method Round() returns (more: bool)
      requires Valid() && !state.Closed?
      modifies Repr()
      ensures Valid() && fresh(Repr() - old(Repr()))
      ensures Pulse() == old(Pulse()).(state := state, waiting := hbWaitingPong)
      ensures more ==> !state.Closed? && rbuf.len + 2 <= old(rbuf.len)
      ensures Settled(if more then Drain(Raw()) else Raw()) == Settled(Drain(old(Raw())))
    {
      hide IsCapacity, ParseHeader, PayloadAt, CloseFrame, Wire, WsSession.OnFrame;
      var r := TryFrame();
      match r
      case NeedMore =>
        more := false;
      case TooLarge =>
        Goodbye(1009, FRAME_TOO_LARGE);
        more := false;
      case Got(f, total) =>
        ParsedPayloadFits(rbuf.Contents());
        rbuf.Consume(total);
        OnFrame(f);
        more := state != Closed;
    }

    /** laure_ws_on_data */
    method OnData(data: seq<byte>)
      requires Valid() && !state.Closed?
      modifies Repr()
      ensures Valid() && fresh(Repr() - old(Repr()))
      ensures Pulse() == old(Pulse()).(state := state, waiting := hbWaitingPong)
      ensures Settled(Raw()) == Settled(Drain(old(Raw()).(rbuf := old(Raw()).rbuf + data)))
    {
      hide IsCapacity, Parse, Drain, WsSession.OnFrame;
      rbuf.Append(data);
      ghost var all := Raw();
      var more := true;
      while more
        invariant Valid() && fresh(Repr() - old(Repr()))
        invariant more ==> !state.Closed?
        invariant Pulse() == old(Pulse()).(state := state, waiting := hbWaitingPong)
        invariant Settled(if more then Drain(Raw()) else Raw()) == Settled(Drain(all))
        decreases if more then rbuf.len + 1 else 0
      {
        more := Round();
      }
    }

    /** dispatch_plain from LAURE_CONN_WS_OPEN on, with laure_hb_reset before it. */
    method Dispatch(data: seq<byte>, now: nat)
      requires Valid()
      modifies Repr()
      ensures Valid() && fresh(Repr() - old(Repr()))
      ensures Settled(Raw()) == Receive(old(Raw()), data)
      ensures Pulse() == old(Pulse()).(waiting := false, state := state)
    {
      hbWaitingPong := false;
      hbLastPong := now;
      ghost var c := Raw();
      if state != Closed {
        DrainKeepsNoWait(c.(rbuf := c.rbuf + data));
        OnData(data);
        assert Settled(Raw()).waitingPong == hbWaitingPong;
      }
    }

    /** laure_hb_start */
    method HbStart(now: nat)
      modifies this`hbActive, this`hbWaitingPong, this`hbTimer
      ensures Pulse() == if old(hbActive) then old(Pulse()) else Start(state, cfg, now)
    {
      if hbActive {
        return;
      }
      hbActive := true;
      hbWaitingPong := false;
      hbTimer := Due(now + cfg.interval);
    }

    /** laure_hb_stop */
    method HbStop()
      modifies this`hbActive, this`hbTimer
      ensures Pulse() == Stop(old(Pulse()))
    {
      if !hbActive {
        return;
      }
      hbTimer := Off;
      hbActive := false;
    }

    /** hb_timer_cb: the timer, one-shot, has just gone off. */
    method HbTimer(now: nat)
      requires Valid()
      modifies this
      ensures Valid() && Repr() == old(Repr())
      ensures Pulse() == Fire(old(Pulse()), cfg, now)
      ensures log == old(log) +
        if !old(state).Open? then []
        else if old(hbWaitingPong) then [Sent(Wire(CloseFrame(1001, HEARTBEAT_TIMEOUT))), Shut]
        else [Sent(Wire(Frame(true, OP_PING, HB)))]
      ensures Raw() == old(Raw()).(state := state, waitingPong := hbWaitingPong, log := log)
    {
      hbTimer := Off;
      if state != Open {
        HbStop();
        return;
      }
      if hbWaitingPong {
        GiveUp();
        return;
      }
      SendControl(OP_PING, HB);
      hbWaitingPong := true;
      hbTimer := Due(now + cfg.timeout);
    }

    method GiveUp()
      requires state.Open?
      modifies this`state, this`log
      ensures state.Closed? && log == old(log) + [Sent(Wire(CloseFrame(1001, HEARTBEAT_TIMEOUT))), Shut]
    {
      WsClose(1001, HEARTBEAT_TIMEOUT);
      ConnClose();
    }

    /** Any sequence of reads. */
    method DispatchAll(pieces: seq<seq<byte>>, now: nat)
      requires Valid() && pieces != []
      modifies Repr()
      ensures Valid()
      ensures Settled(Raw()) == Receive(Settled(old(Raw())), Flatten(pieces))
    {
      ghost var start := Settled(Raw());
      for i := 0 to |pieces|
        invariant Valid() && fresh(Repr() - old(Repr()))
        invariant ReceiveAll(Settled(Raw()), pieces[i..]) == ReceiveAll(start, pieces)
      {
        SettledFirst(Raw(), pieces[i]);
        Dispatch(pieces[i], now);
        assert pieces[i..][1..] == pieces[i + 1..];
      }
      SplitInvariance(start, pieces);
    }

    /** One thing that happens to the connection. */
    method Do(op: Op)
      requires Valid() && Sayable(op)
      modifies Repr()
      ensures Valid() && fresh(Repr() - old(Repr()))
      ensures Life(Settled(Raw()), Pulse()) == Live(old(Life(Settled(Raw()), Pulse())), cfg, op)
    {
      hide CloseFrame, Wire, Drain;
      match op
      case Timer(t) => HbTimer(t);
      case Read(t, data) =>
        SettledFirst(Raw(), data);
        Dispatch(data, t);
      case Close(_, code, reason) => WsClose(code, reason);
      case Drop(_) => ConnClose();
    }

    /** The life of an open connection from the start of its heartbeat: what it reads, sends and calls
        back is that of the stream semantics, and its state follows the timed model. */
    method Serve(ops: seq<Op>)
      requires Valid() && state.Open? && !hbActive
      requires forall i :: 0 <= i < |ops| ==> Sayable(ops[i])
      modifies Repr()
      ensures Valid()
      ensures var start := Life(old(Raw()).(waitingPong := false), Start(Open, cfg, 0));
        Life(Settled(Raw()), Pulse()) == LiveAll(start, cfg, ops) && Pulse() == After(cfg, Trace(start, cfg, ops))
    {
      hide Live;
      HbStart(0);
      ghost var start := Life(Raw(), Pulse());
      assert ops[..0] == [];
      for i := 0 to |ops|
        invariant Valid() && fresh(Repr() - old(Repr()))
        invariant Life(Settled(Raw()), Pulse()) == LiveAll(start, cfg, ops[..i])
      {
        Do(ops[i]);
        assert ops[..i + 1][..i] == ops[..i];
      }
      assert ops[..|ops|] == ops;
      TraceIsRun(start, cfg, ops);
    }
  }

  const HB := Ascii("hb")
  const HEARTBEAT_TIMEOUT := Ascii("heartbeat timeout")

  /* ---- whole lives of a connection ------------------------------------------------------------------ */

  /** The heartbeat timer goes off, a read returns, the application says goodbye or drops the connection. */
  datatype Op = Timer(t: nat) | Read(t: nat, data: seq<byte>) | Close(t: nat, code: nat, reason: seq<byte>) | Drop(t: nat)

  predicate Sayable(op: Op) {
    op.Close? ==> |op.reason| <= MAX_FRAME
  }

  /** A connection as the stream semantics and the timed model see it. */
  datatype Life = Life(session: Session, hb: Hb)

  /** What the timer callback sends. */
  function TimerLog(h: Hb): seq<Event> {
    if !h.state.Open? then []
    else if h.waiting then [Sent(Wire(CloseFrame(1001, HEARTBEAT_TIMEOUT))), Shut]
    else [Sent(Wire(Frame(true, OP_PING, HB)))]
  }

  function Live(l: Life, cfg: Config, op: Op): Life
    requires Sayable(op)
  {
    var s := l.session;
    match op
    case Timer(t) =>
      var h := Fire(l.hb, cfg, t);
      Life(Settled(s.(state := h.state, waitingPong := h.waiting, log := s.log + TimerLog(l.hb))), h)
    case Read(_, data) =>
      var r := Receive(s, data);
      Life(r, l.hb.(waiting := false, state := r.state))
    case Close(_, code, reason) =>
      if s.state.Open? then
        Life(s.(state := Closing, log := s.log + [Sent(Wire(CloseFrame(code, reason)))]), l.hb.(state := Closing))
      else l
    case Drop(_) =>
      if s.state.Closed? then l
      else Life(Settled(s.(state := Closed, log := s.log + [Shut])), l.hb.(state := Closed))
  }

  function LiveAll(l: Life, cfg: Config, ops: seq<Op>): Life
    requires forall i :: 0 <= i < |ops| ==> Sayable(ops[i])
  {
    if ops == [] then l else Live(LiveAll(l, cfg, ops[..|ops| - 1]), cfg, ops[|ops| - 1])
  }

  /** What the timed model hears of it. */
  function Heard(l: Life, cfg: Config, op: Op): seq<Ev>
    requires Sayable(op)
  {
    match op
    case Timer(t) => [Tick(t)]
    case Read(t, _) => [Bytes(t), Leave(t, Live(l, cfg, op).session.state)]
    case Close(t, _, _) => [Leave(t, if l.session.state.Open? then Closing else l.session.state)]
    case Drop(t) => [Leave(t, Closed)]
  }

  function Trace(l: Life, cfg: Config, ops: seq<Op>): seq<Ev>
    requires forall i :: 0 <= i < |ops| ==> Sayable(ops[i])
  {
    if ops == [] then []
    else
      var before := ops[..|ops| - 1];
      Trace(l, cfg, before) + Heard(LiveAll(l, cfg, before), cfg, ops[|ops| - 1])
  }

  predicate Started(l: Life, cfg: Config) {
    l.session.state.Open? && l.hb == Start(Open, cfg, 0)
  }

  lemma AfterNext(cfg: Config, evs: seq<Ev>, e: Ev)
    ensures After(cfg, evs + [e]) == Next(After(cfg, evs), cfg, e)
  {
    assert (evs + [e])[..|evs|] == evs;
  }

  /** The connection's heartbeat is the timed model after what it heard. */
  lemma {:induction false} TraceIsRun(l: Life, cfg: Config, ops: seq<Op>)
    requires Started(l, cfg) && forall i :: 0 <= i < |ops| ==> Sayable(ops[i])
    ensures var r := LiveAll(l, cfg, ops); r.hb == After(cfg, Trace(l, cfg, ops)) && r.session.state == r.hb.state
    decreases |ops|
  {
    hide Wire, CloseFrame, Drain, After;
    if ops == [] {
      AfterNothing(cfg);
    } else {
      var before, op := ops[..|ops| - 1], ops[|ops| - 1];
      TraceIsRun(l, cfg, before);
      var b, evs := LiveAll(l, cfg, before), Trace(l, cfg, before);
      var heard := Heard(b, cfg, op);
      AfterNext(cfg, evs, heard[0]);
      if op.Read? {
        ReadKeepsGoing(b.session, op.data);
        AfterNext(cfg, evs + [heard[0]], heard[1]);
        assert evs + heard == evs + [heard[0]] + [heard[1]];
      }
    }
  }

  lemma AfterNothing(cfg: Config)
    ensures After(cfg, []) == Start(Open, cfg, 0)
  {
  }

  lemma {:induction false} DrainNeverOpens(c: Session)
    requires !c.state.Open?
    ensures !Drain(c).state.Open?
    decreases |c.rbuf|
  {
    hide Wire, CloseFrame;
    if !c.state.Closed? && Parse(c.rbuf).Got? {
      ParsedPayloadFits(c.rbuf);
      DrainNeverOpens(OnFrame(c.(rbuf := c.rbuf[Parse(c.rbuf).total..]), Parse(c.rbuf).frame));
    }
  }

  lemma ReadKeepsGoing(c: Session, data: seq<byte>)
    ensures Receive(c, data).state.Open? ==> c.state.Open?
  {
    hide Drain;
    var d := c.(waitingPong := false);
    if c.state.Closing? {
      DrainNeverOpens(d.(rbuf := d.rbuf + data));
    }
  }

  /** The time of the last read. */
  function LastRead(ops: seq<Op>): nat {
    if ops == [] then 0
    else if ops[|ops| - 1].Read? then ops[|ops| - 1].t else LastRead(ops[..|ops| - 1])
  }

  lemma HeardNext(evs: seq<Ev>, e: Ev)
    ensures LastHeard(evs + [e]) == if e.Bytes? then e.t else LastHeard(evs)
  {
    assert (evs + [e])[..|evs|] == evs;
  }

  lemma {:induction false} LastReadIsHeard(l: Life, cfg: Config, ops: seq<Op>)
    requires forall i :: 0 <= i < |ops| ==> Sayable(ops[i])
    ensures LastHeard(Trace(l, cfg, ops)) == LastRead(ops)
    decreases |ops|
  {
    hide Live, LastHeard;
    if ops == [] {
      assert LastHeard([]) == 0 by { HeardNothing(); }
    } else {
      var before, op := ops[..|ops| - 1], ops[|ops| - 1];
      LastReadIsHeard(l, cfg, before);
      var evs, heard := Trace(l, cfg, before), Heard(LiveAll(l, cfg, before), cfg, op);
      HeardNext(evs, heard[0]);
      if op.Read? {
        HeardNext(evs + [heard[0]], heard[1]);
        assert evs + heard == evs + [heard[0]] + [heard[1]];
      }
    }
  }

  lemma HeardNothing()
    ensures LastHeard([]) == 0
  {
  }

  /** The connection object gives its peer up only on a timer tick that directly follows the tick that
      sent the ping, a full timeout later. */
  lemma GivesUpDeservedly(l: Life, cfg: Config, lag: nat, ops: seq<Op>, k: nat)
    requires Started(l, cfg) && k < |ops| && forall i :: 0 <= i < |ops| ==> Sayable(ops[i])
    requires ops[k].Timer? && Legal(cfg, lag, Trace(l, cfg, ops[..k + 1]))
    requires LiveAll(l, cfg, ops[..k]).hb.state.Open? && LiveAll(l, cfg, ops[..k]).hb.waiting
    ensures k > 0 && ops[k - 1].Timer? && ops[k - 1].t + cfg.timeout <= ops[k].t
    ensures LiveAll(l, cfg, ops[..k]).session.log == LiveAll(l, cfg, ops[..k - 1]).session.log + [Sent(Wire(Frame(true, OP_PING, HB)))]
  {
    hide Wire, CloseFrame, Receive, After;
    var b := LiveAll(l, cfg, ops[..k]);
    assert ops[..k + 1][..k] == ops[..k];
    TraceIsRun(l, cfg, ops[..k]);
    if k > 0 {
      assert ops[..k][..k - 1] == ops[..k - 1];
      TraceIsRun(l, cfg, ops[..k - 1]);
    }
    var evs := Trace(l, cfg, ops[..k]);
    assert Trace(l, cfg, ops[..k + 1]) == evs + [Tick(ops[k].t)];
    assert (evs + [Tick(ops[k].t)])[..|evs|] == evs;
  }

  /** A connection object that has read nothing for longer than the bound is no longer open. */
  lemma SilentConnIsClosed(l: Life, cfg: Config, lag: nat, ops: seq<Op>, e: Ev)
    requires Started(l, cfg) && forall i :: 0 <= i < |ops| ==> Sayable(ops[i])
    requires Legal(cfg, lag, Trace(l, cfg, ops) + [e])
    requires e.t > LastRead(ops) + Max(cfg.interval, cfg.timeout) + cfg.timeout + 2 * lag
    ensures !LiveAll(l, cfg, ops).session.state.Open?
  {
    hide Live, Legal, After;
    TraceIsRun(l, cfg, ops);
    LastReadIsHeard(l, cfg, ops);
    SilentPeerIsClosed(cfg, lag, Trace(l, cfg, ops), e);
  }

  /** What the heartbeat sends, in bytes: a ping "hb", and a goodbye 1001 "heartbeat timeout". */
  lemma HeartbeatBytes()
    ensures Wire(Frame(true, OP_PING, HB)) == [137, 2, 104, 98]
    ensures Wire(CloseFrame(1001, HEARTBEAT_TIMEOUT)) ==
            [136, 19, 3, 233, 104, 101, 97, 114, 116, 98, 101, 97, 116, 32, 116, 105, 109, 101, 111, 117, 116]
  {
    hide Wire, CloseFrame;
    var reason := [104, 101, 97, 114, 116, 98, 101, 97, 116, 32, 116, 105, 109, 101, 111, 117, 116];
    assert HB == [104, 98];
    WireBytes(OP_PING, HB);
    assert HEARTBEAT_TIMEOUT == reason;
    RefusalBytes(1001, reason);
    TwoBytes(1001);
    assert [136, 19] + [3, 233] + reason ==
      [136, 19, 3, 233, 104, 101, 97, 114, 116, 98, 101, 97, 116, 32, 116, 105, 109, 101, 111, 117, 116];
  }

  lemma SettledFirst(c: Session, data: seq<byte>)
    ensures Receive(Settled(c), data) == Receive(c, data)
  {
  }
}
