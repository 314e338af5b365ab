/** The ping/pong heartbeat as a timed state machine: one-shot timer, missed-pong close, and the
    rule that any arriving byte counts as a sign of life. */
module Heartbeat {
  import opened Bytes
  import opened WsSession

  datatype Timer = Off | Due(at: nat)

  datatype Hb = Hb(state: ConnState, active: bool, waiting: bool, timer: Timer)

  datatype Config = Config(interval: nat, timeout: nat)

  /** laure_hb_start on a connection without a heartbeat. */
  function Start(state: ConnState, cfg: Config, now: nat): Hb {
    Hb(state, true, false, Due(now + cfg.interval))
  }

  /** laure_hb_stop */
  function Stop(h: Hb): Hb {
    if h.active then h.(active := false, timer := Off) else h
  }

  /** hb_timer_cb, run when the one-shot timer has gone off. */
  function Fire(h: Hb, cfg: Config, now: nat): Hb {
    var h := h.(timer := Off);
    if !h.state.Open? then Stop(h)
    else if h.waiting then h.(state := Closed)
    else h.(waiting := true, timer := Due(now + cfg.timeout))
  }

  /** What happens to a connection at a moment: its timer goes off, bytes arrive, or its state is
      changed by a close from either side. */
  datatype Ev = Tick(t: nat) | Bytes(t: nat) | Leave(t: nat, to_: ConnState)

  function Next(h: Hb, cfg: Config, e: Ev): Hb {
    match e
    case Tick(t) => Fire(h, cfg, t)
    case Bytes(_) => h.(waiting := false)
    case Leave(_, s) => if s.Open? then h else h.(state := s)
  }

  /** A heartbeat started at time 0 on an open connection, after a run. */
  function After(cfg: Config, evs: seq<Ev>): Hb {
    if evs == [] then Start(Open, cfg, 0) else Next(After(cfg, evs[..|evs| - 1]), cfg, evs[|evs| - 1])
  }

  function Now(evs: seq<Ev>): nat {
    if evs == [] then 0 else evs[|evs| - 1].t
  }

  /** Time of the last sign of life. */
  function LastHeard(evs: seq<Ev>): nat {
    if evs == [] then 0
    else var e := evs[|evs| - 1]; if e.Bytes? then e.t else LastHeard(evs[..|evs| - 1])
  }

  /** Time does not run backwards, the timer goes off only once due, and at most `lag` late. */
  ghost predicate Legal(cfg: Config, lag: nat, evs: seq<Ev>) {
    evs == [] ||
    (var before, e := evs[..|evs| - 1], evs[|evs| - 1];
     && Legal(cfg, lag, before)
     && Now(before) <= e.t
     && (After(cfg, before).timer.Due? ==> e.t <= After(cfg, before).timer.at + lag)
     && (e.Tick? ==> After(cfg, before).timer.Due? && After(cfg, before).timer.at <= e.t))
  }

  /** Event i is a timer tick that sends a ping. */
  ghost predicate PingAt(cfg: Config, evs: seq<Ev>, i: int) {
    0 <= i < |evs| && evs[i].Tick? && After(cfg, evs[..i]).state.Open? && !After(cfg, evs[..i]).waiting
  }

  /** Event i is a timer tick that gives the peer up. */
  ghost predicate TimeoutAt(cfg: Config, evs: seq<Ev>, i: int) {
    0 <= i < |evs| && evs[i].Tick? && After(cfg, evs[..i]).state.Open? && After(cfg, evs[..i]).waiting
  }

  /** Ping i is unanswered at the end of evs: no bytes since, and the timer stands at its timeout. */
  ghost predicate Unanswered(cfg: Config, evs: seq<Ev>, i: int) {
    && PingAt(cfg, evs, i)
    && (forall j :: i < j < |evs| ==> !evs[j].Bytes?)
    && After(cfg, evs).timer == Due(evs[i].t + cfg.timeout)
  }

  lemma {:induction false} WaitingMeansUnanswered(cfg: Config, lag: nat, evs: seq<Ev>) returns (i: int)
    requires Legal(cfg, lag, evs) && After(cfg, evs).state.Open? && After(cfg, evs).waiting
    ensures Unanswered(cfg, evs, i)
  {
    var before, e := evs[..|evs| - 1], evs[|evs| - 1];
    if e.Tick? {
      i := |evs| - 1;
    } else {
      i := WaitingMeansUnanswered(cfg, lag, before);
      assert evs[..i] == before[..i];
    }
  }

  /** Ping i went unanswered for a full timeout before event k. */
  ghost predicate Missed(cfg: Config, evs: seq<Ev>, i: int, k: nat) {
    && i < k < |evs| && PingAt(cfg, evs, i) && evs[i].t + cfg.timeout <= evs[k].t
    && forall j :: i < j < k ==> !evs[j].Bytes?
  }

  /** Safety: the heartbeat closes a connection only after a ping that was followed by a full
      timeout without a single byte. */
  lemma TimeoutIsDeserved(cfg: Config, lag: nat, evs: seq<Ev>, k: nat)
    requires k < |evs| && Legal(cfg, lag, evs[..k + 1]) && TimeoutAt(cfg, evs, k)
    ensures exists i :: Missed(cfg, evs, i, k)
  {
    assert evs[..k + 1][..k] == evs[..k];
    var i := WaitingMeansUnanswered(cfg, lag, evs[..k]);
    assert evs[..k][..i] == evs[..i];
    assert Missed(cfg, evs, i, k);
  }

  /** While the connection is open the timer runs, and it is never further off than the silence
      so far allows. */
  lemma {:induction false} DueSoon(cfg: Config, lag: nat, evs: seq<Ev>)
    requires Legal(cfg, lag, evs) && After(cfg, evs).state.Open?
    ensures LastHeard(evs) <= Now(evs)
    ensures var h, slack := After(cfg, evs), Max(cfg.interval, cfg.timeout);
      && h.active && h.timer.Due?
      && h.timer.at <= LastHeard(evs) + slack + (if h.waiting then lag + cfg.timeout else 0)
      && h.timer.at <= Now(evs) + slack
  {
    if evs != [] {
      DueSoon(cfg, lag, evs[..|evs| - 1]);
    }
  }

  lemma {:induction false} OpenOrClosed(cfg: Config, evs: seq<Ev>)
    requires forall i :: 0 <= i < |evs| ==> !evs[i].Leave?
    ensures !After(cfg, evs).state.Closing?
  {
    if evs != [] {
      OpenOrClosed(cfg, evs[..|evs| - 1]);
    }
  }

  /** Liveness: once the clock has passed the last sign of life by more than
      max(interval, timeout) + timeout, up to the timer's lag before the ping and before the
      close, the connection is no longer open; with no close from elsewhere the heartbeat has
      closed it. */
  lemma SilentPeerIsClosed(cfg: Config, lag: nat, evs: seq<Ev>, e: Ev)
    requires Legal(cfg, lag, evs + [e])
    requires e.t > LastHeard(evs) + Max(cfg.interval, cfg.timeout) + cfg.timeout + 2 * lag
    ensures !After(cfg, evs).state.Open?
    ensures (forall i :: 0 <= i < |evs| ==> !evs[i].Leave?) ==> After(cfg, evs).state.Closed?
  {
    assert (evs + [e])[..|evs + [e]| - 1] == evs;
    if After(cfg, evs).state.Open? {
      DueSoon(cfg, lag, evs);
    }
    if forall i :: 0 <= i < |evs| ==> !evs[i].Leave? {
      OpenOrClosed(cfg, evs);
    }
  }

  /** A connection that said goodbye first is outside the heartbeat's reach: whatever ticks and
      bytes follow, it stays closing, and after the next tick the heartbeat is over: no longer
      active, and its timer off for good. */
  lemma {:induction false} ClosingIsNotTimed(cfg: Config, evs: seq<Ev>, more: seq<Ev>)
    requires After(cfg, evs).state.Closing?
    requires forall i :: 0 <= i < |more| ==> !more[i].Leave?
    ensures After(cfg, evs + more).state.Closing?
    ensures (exists i :: 0 <= i < |more| && more[i].Tick?) ==>
      After(cfg, evs + more).timer.Off? && !After(cfg, evs + more).active
    decreases |more|
  {
    if more == [] {
      assert evs + more == evs;
    } else {
      var rest := more[..|more| - 1];
      assert (evs + more)[..|evs + more| - 1] == evs + rest;
      ClosingIsNotTimed(cfg, evs, rest);
      assert forall i :: 0 <= i < |rest| ==> rest[i] == more[i];
    }
  }

  /** The bound is reached: with a punctual timer, a peer that never speaks and an interval no
      shorter than the timeout, the close comes exactly then. */
  lemma BoundIsReached(cfg: Config)
    requires cfg.interval >= cfg.timeout
    ensures var evs := [Tick(cfg.interval), Tick(cfg.interval + cfg.timeout)];
      && Legal(cfg, 0, evs) && TimeoutAt(cfg, evs, 1) && After(cfg, evs).state.Closed?
      && Now(evs) == LastHeard(evs) + Max(cfg.interval, cfg.timeout) + cfg.timeout
  {
    var a, b := Tick(cfg.interval), Tick(cfg.interval + cfg.timeout);
    assert [a, b][..1] == [a] && [a][..0] == [];
    assert After(cfg, [a]) == Next(After(cfg, []), cfg, a);
    assert Legal(cfg, 0, []) && Legal(cfg, 0, [a]);
    assert LastHeard([a]) == 0 && LastHeard([a, b]) == LastHeard([a]);
    assert After(cfg, [a, b]) == Next(After(cfg, [a]), cfg, b);
  }
}
