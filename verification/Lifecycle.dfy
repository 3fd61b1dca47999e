/** server.go and monitor.go: the four-state lifecycle with its deadlines, the monitor's decisions,
    and what a controller-managed configuration may never do.

    Each transition, with the deadlines it sets, is one atomic step at one instant. Times are
    nanoseconds. `since`, `playersSeen`, `hops`, `signals` and `sleeps` record the history that the
    properties speak about. */
module Lifecycle {
  import opened Bytes
  import opened StateWatch

  const SECOND := 1_000_000_000

  datatype Config = Config(
    controllerManaged: bool, freezeProcess: bool, wakeOnCrash: bool, rconEnabled: bool,
    startTimeout: nat, stopTimeout: nat, minOnlineTime: nat, sleepAfter: nat)

  /** Why the state changed. */
  datatype Cause = Wake | Answered | Unanswered | Expired | StopSent | FreezeSent | ProcessGone

  /** A transition at a time, out of a state entered at another. */
  datatype Hop = Hop(from: State, to: State, cause: Cause, at: int, since: int)

  datatype SignalKind = Kill | Term | Freeze | Unfreeze

  /** A signal, and the state and time of entry when it was sent. */
  datatype Signal = Signal(kind: SignalKind, pid: nat, at: int, state: State, since: int)

  /** A decision to put the server to sleep, and what it rested on. */
  datatype Sleep = Sleep(at: int, state: State, since: int, playersSeen: Option<int>, players: nat)

  datatype Server = Server(
    state: State, killAt: Option<int>, lastActive: Option<int>, keepOnline: Option<int>, players: Option<nat>, pid: nat,
    since: int, playersSeen: Option<int>, hops: seq<Hop>, signals: seq<Signal>, sleeps: seq<Sleep>)

  function NewServer(): Server {
    Server(Stopped, None, None, None, None, 0, 0, None, [], [], [])
  }

  // ---- transitions ----

  /** The deadline that entering a state sets. */
  function Deadline(cfg: Config, state: State, now: int): Option<int> {
    match state
    case Starting => if cfg.startTimeout > 0 then Some(now + cfg.startTimeout * SECOND) else None
    case Stopping => if cfg.stopTimeout > 0 then Some(now + cfg.stopTimeout * SECOND) else None
    case _ => None
  }

  function OnlineUntil(cfg: Config, now: int): Option<int> {
    if cfg.minOnlineTime > 0 then Some(now + cfg.minOnlineTime * SECOND) else None
  }

  function Entered(cfg: Config, s: Server, now: int, to: State, cause: Cause): Server {
    var t := s.(
      state := to, killAt := Deadline(cfg, to, now), since := now,
      hops := s.hops + [Hop(s.state, to, cause, now, s.since)]);
    if to != Started then t
    else t.(lastActive := Some(now), keepOnline := OnlineUntil(cfg, now))
  }

  /** updateStateFrom; without a `from` it is updateState. */
  function Update(cfg: Config, s: Server, now: int, from: Option<State>, to: State, cause: Cause): (Server, bool) {
    if (from.Some? && s.state != from.value) || s.state == to then (s, false)
    else (Entered(cfg, s, now, to, cause), true)
  }

  function Send(s: Server, now: int, kind: SignalKind): Server {
    s.(signals := s.signals + [Signal(kind, s.pid, now, s.state, s.since)])
  }

  /** UpdateStatus: a reply with its number of players, or none. */
  function AfterStatus(cfg: Config, s: Server, now: int, status: Option<nat>): Server {
    var t :=
      if (s.state == Stopped || s.state == Starting) && status.Some? then Update(cfg, s, now, None, Started, Answered).0
      else if s.state == Started && status.None? then Update(cfg, s, now, None, Stopped, Unanswered).0
      else s;
    if status.None? then t
    else if status.value > 0 then t.(lastActive := Some(now), playersSeen := Some(now), players := status)
    else t.(players := status)
  }

  function AfterUnfreeze(cfg: Config, s: Server, now: int): (Server, bool) {
    if cfg.controllerManaged || s.pid == 0 then (s, false)
    else
      var s1 := Send(s, now, Unfreeze);
      var s2 := Update(cfg, s1, now, Some(Stopping), Starting, Wake).0;
      (Update(cfg, s2, now, Some(Stopped), Starting, Wake).0, true)
  }

  function AfterStart(cfg: Config, s: Server, now: int): (Server, bool) {
    if cfg.controllerManaged && cfg.freezeProcess then (s, false)
    else
      var (s1, ok) := Update(cfg, s, now, Some(Stopped), Starting, Wake);
      if !ok then (s1, false)
      else if cfg.freezeProcess then (AfterUnfreeze(cfg, s1, now).0, true)
      else (s1, true)
  }

  function AfterFreeze(cfg: Config, s: Server, now: int): (Server, bool) {
    if s.pid == 0 then (s, false)
    else
      var s1 := Send(s, now, Freeze);
      var s2 := Update(cfg, s1, now, Some(Starting), Stopped, FreezeSent).0;
      (Update(cfg, s2, now, Some(Started), Stopped, FreezeSent).0, true)
  }

  function AfterTerm(cfg: Config, s: Server, now: int, delivered: bool): (Server, bool) {
    if s.pid == 0 then (s, false)
    else
      var s1 := Send(s, now, Term);
      if !delivered then (s1, false)
      else
        var s2 := Update(cfg, s1, now, Some(Starting), Stopping, StopSent).0;
        (Update(cfg, s2, now, Some(Started), Stopping, StopSent).0, true)
  }

  /** What the outside does when the server is asked to stop. */
  datatype StopEnv = StopEnv(rconStops: bool, termDelivered: bool)

  function AfterStop(cfg: Config, s: Server, now: int, env: StopEnv): (Server, bool) {
    if cfg.controllerManaged then (s, false)
    else if cfg.freezeProcess && s.pid != 0 then AfterFreeze(cfg, s, now)
    else if s.state == Started && cfg.rconEnabled && env.rconStops then (Update(cfg, s, now, None, Stopping, StopSent).0, true)
    else AfterTerm(cfg, s, now, env.termDelivered)
  }

  function AfterForceKill(cfg: Config, s: Server, now: int): (Server, bool) {
    if cfg.controllerManaged || s.pid == 0 then (s, false) else (Send(s, now, Kill), true)
  }

  predicate SleepDue(cfg: Config, s: Server, now: int) {
    && !cfg.controllerManaged
    && s.state == Started
    && !(s.players.Some? && s.players.value > 0)
    && !(s.keepOnline.Some? && s.keepOnline.value >= now)
    && s.lastActive.Some? && now - s.lastActive.value >= cfg.sleepAfter * SECOND
  }

  predicate KillDue(s: Server, now: int) {
    s.killAt.Some? && s.killAt.value <= now
  }

  function AfterExpire(cfg: Config, s: Server, now: int): (Server, bool) {
    if !cfg.controllerManaged || !KillDue(s, now) then (s, false)
    else Update(cfg, s, now, Some(Starting), Stopped, Expired)
  }

  // ---- the monitor and everything else that happens ----

  datatype Poll = Reply(players: nat) | PingOnly | NoReply

  function AfterPoll(cfg: Config, s: Server, now: int, poll: Poll): Server {
    match poll
    case Reply(players) => AfterStatus(cfg, s, now, Some(players))
    case NoReply => AfterStatus(cfg, s, now, None)
    case PingOnly => s
  }

  function AfterBedtime(cfg: Config, s: Server, now: int, env: StopEnv): Server {
    if !SleepDue(cfg, s, now) then s
    else
      var decided := s.(sleeps := s.sleeps + [Sleep(now, s.state, s.since, s.playersSeen, if s.players.Some? then s.players.value else 0)]);
      AfterStop(cfg, decided, now, env).0
  }

  function AfterDeadline(cfg: Config, s: Server, now: int): Server {
    if !KillDue(s, now) then s
    else if cfg.controllerManaged then AfterExpire(cfg, s, now).0
    else AfterForceKill(cfg, s, now).0
  }

  /** A tick of MonitorServer is `Polled`, `Bedtime` and `DeadlineCheck`, and anything may happen between
      them. `Spawned` and `Exited` set and clear the PID of the process or helper; `CooledDown` is what
      the process goroutine does last, and exists only without a controller. */
  datatype Event =
    | Polled(now: int, poll: Poll)
    | Bedtime(now: int, env: StopEnv)
    | DeadlineCheck(now: int)
    | StartRequest(now: int)
    | StopRequest(now: int, env: StopEnv)
    | Seed(now: int, players: nat)
    | Spawned(now: int, pid: nat)
    | Exited(now: int)
    | CooledDown(now: int, crashed: bool)

  function Next(cfg: Config, s: Server, ev: Event): Server {
    match ev
    case Polled(now, poll) => AfterPoll(cfg, s, now, poll)
    case Bedtime(now, env) => AfterBedtime(cfg, s, now, env)
    case DeadlineCheck(now) => AfterDeadline(cfg, s, now)
    case StartRequest(now) => AfterStart(cfg, s, now).0
    case StopRequest(now, env) => AfterStop(cfg, s, now, env).0
    case Seed(_, players) => if s.players.None? then s.(players := Some(players)) else s
    case Spawned(_, pid) => s.(pid := pid)
    case Exited(_) => s.(pid := 0)
    case CooledDown(now, crashed) =>
      if cfg.controllerManaged then s
      else
        var t := Update(cfg, s, now, None, Stopped, ProcessGone).0;
        if crashed && cfg.wakeOnCrash then AfterStart(cfg, t, now).0 else t
  }

  function Run(cfg: Config, s: Server, events: seq<Event>): Server
    decreases events
  {
    if events == [] then s else Run(cfg, Next(cfg, s, events[0]), events[1..])
  }

  // ---- controller-managed safety ----

  /** The only ways a controller-managed server moves. */
  predicate ManagedHop(h: Hop) {
    || (h.from == Stopped && h.to == Starting && h.cause == Wake)
    || ((h.from == Stopped || h.from == Starting) && h.to == Started && h.cause == Answered)
    || (h.from == Started && h.to == Stopped && h.cause == Unanswered)
    || (h.from == Starting && h.to == Stopped && h.cause == Expired)
  }

  ghost predicate ManagedInv(s: Server) {
    && s.state != Stopping && s.signals == [] && s.sleeps == []
    && forall i :: 0 <= i < |s.hops| ==> ManagedHop(s.hops[i])
  }

  lemma ManagedStep(cfg: Config, s: Server, ev: Event)
    requires cfg.controllerManaged && ManagedInv(s)
    ensures ManagedInv(Next(cfg, s, ev))
  {
    hide Deadline;
  }

  /** Controller-managed safety over whole runs: whatever happens, no signal is ever sent, Stopping is
      never reached, and every transition is a wake, an answered or unanswered poll, or an expiry. */
  lemma {:induction false} ManagedRun(cfg: Config, s: Server, events: seq<Event>)
    requires cfg.controllerManaged && ManagedInv(s)
    ensures ManagedInv(Run(cfg, s, events))
    decreases events
  {
    hide Next, ManagedInv;
    if events != [] {
      ManagedStep(cfg, s, events[0]);
      ManagedRun(cfg, Next(cfg, s, events[0]), events[1..]);
    }
  }

  lemma ControllerManagedSafety(cfg: Config, events: seq<Event>)
    requires cfg.controllerManaged
    ensures ManagedInv(Run(cfg, NewServer(), events))
  {
    ManagedRun(cfg, NewServer(), events);
  }

  // ---- sleep and kill timing ----

  function TimeoutOf(cfg: Config, state: State): nat {
    match state
    case Starting => cfg.startTimeout
    case Stopping => cfg.stopTimeout
    case _ => 0
  }

  /** A kill is sent only to a server that has been Starting or Stopping for its whole timeout. */
  predicate KillInTime(cfg: Config, sig: Signal) {
    sig.kind == Kill ==>
      && (sig.state == Starting || sig.state == Stopping)
      && TimeoutOf(cfg, sig.state) > 0
      && sig.at >= sig.since + TimeoutOf(cfg, sig.state) * SECOND
  }

  /** A start expires only after its whole timeout. */
  predicate ExpiryInTime(cfg: Config, h: Hop) {
    h.cause == Expired ==>
      && h.from == Starting && h.to == Stopped
      && cfg.startTimeout > 0
      && h.at >= h.since + cfg.startTimeout * SECOND
  }

  /** Sleep is chosen only for a server that is started, empty, past its minimum online time, and
      idle for long enough since it came up and since players were last seen. */
  predicate SleepInTime(cfg: Config, z: Sleep) {
    && z.state == Started && z.players == 0
    && (cfg.minOnlineTime > 0 ==> z.at > z.since + cfg.minOnlineTime * SECOND)
    && z.at >= z.since + cfg.sleepAfter * SECOND
    && (z.playersSeen.Some? ==> z.at >= z.playersSeen.value + cfg.sleepAfter * SECOND)
  }

  /** Since when a started server has been without players, as far as it is known. */
  function IdleSince(s: Server): int {
    if s.playersSeen.Some? && s.playersSeen.value > s.since then s.playersSeen.value else s.since
  }

  /** Deadlines are those of the current state; activity is no older than entry or players. */
  ghost predicate Timed(cfg: Config, s: Server, now: int) {
    && s.since <= now
    && s.killAt == Deadline(cfg, s.state, s.since)
    && (s.playersSeen.Some? ==> s.playersSeen.value <= now && s.lastActive.Some? && s.playersSeen.value <= s.lastActive.value)
    && (s.state == Started ==>
          && s.since <= IdleSince(s) <= now && s.lastActive == Some(IdleSince(s))
          && s.keepOnline == OnlineUntil(cfg, s.since))
  }

  ghost predicate Justified(cfg: Config, s: Server) {
    && (forall i :: 0 <= i < |s.signals| ==> KillInTime(cfg, s.signals[i]))
    && (forall i :: 0 <= i < |s.sleeps| ==> SleepInTime(cfg, s.sleeps[i]))
    && (forall i :: 0 <= i < |s.hops| ==> ExpiryInTime(cfg, s.hops[i]))
  }

  lemma UpdateKeepsTime(cfg: Config, s: Server, now: int, from: Option<State>, to: State, cause: Cause)
    requires Timed(cfg, s, now)
    ensures var t := Update(cfg, s, now, from, to, cause).0;
            && Timed(cfg, t, now) && t.signals == s.signals && t.sleeps == s.sleeps && t.pid == s.pid
            && (t.hops == s.hops || t.hops == s.hops + [Hop(s.state, to, cause, now, s.since)])
  {
    hide Deadline;
  }

  /** Everything that is not a decision keeps the deadlines and adds no kill, no sleep and no expiry. */
  ghost predicate Quiet(cfg: Config, s: Server, t: Server, now: int) {
    && Timed(cfg, t, now)
    && t.sleeps == s.sleeps
    && |s.signals| <= |t.signals| && t.signals[..|s.signals|] == s.signals
    && (forall i :: |s.signals| <= i < |t.signals| ==> t.signals[i].kind != Kill)
    && |s.hops| <= |t.hops| && t.hops[..|s.hops|] == s.hops
    && (forall i :: |s.hops| <= i < |t.hops| ==> t.hops[i].cause != Expired)
  }

  lemma StartIsQuiet(cfg: Config, s: Server, now: int)
    requires Timed(cfg, s, now)
    ensures Quiet(cfg, s, AfterStart(cfg, s, now).0, now)
  {
    hide Update, Timed;
    UpdateKeepsTime(cfg, s, now, Some(Stopped), Starting, Wake);
    var s1 := Update(cfg, s, now, Some(Stopped), Starting, Wake).0;
    UnfreezeIsQuiet(cfg, s1, now);
  }

  lemma SendKeepsTime(cfg: Config, s: Server, now: int, kind: SignalKind)
    requires Timed(cfg, s, now)
    ensures Timed(cfg, Send(s, now, kind), now)
  {
  }

  lemma UnfreezeIsQuiet(cfg: Config, s: Server, now: int)
    requires Timed(cfg, s, now)
    ensures Quiet(cfg, s, AfterUnfreeze(cfg, s, now).0, now)
  {
    SendKeepsTime(cfg, s, now, Unfreeze);
    var s1 := Send(s, now, Unfreeze);
    var s2 := Update(cfg, s1, now, Some(Stopping), Starting, Wake).0;
    UpdateKeepsTime(cfg, s1, now, Some(Stopping), Starting, Wake);
    UpdateKeepsTime(cfg, s2, now, Some(Stopped), Starting, Wake);
    hide Update, Timed;
  }

  lemma StopIsQuiet(cfg: Config, s: Server, now: int, env: StopEnv)
    requires Timed(cfg, s, now)
    ensures Quiet(cfg, s, AfterStop(cfg, s, now, env).0, now)
  {
    UpdateKeepsTime(cfg, s, now, None, Stopping, StopSent);
    SendKeepsTime(cfg, s, now, Freeze);
    SendKeepsTime(cfg, s, now, Term);
    var f1, t1 := Send(s, now, Freeze), Send(s, now, Term);
    UpdateKeepsTime(cfg, f1, now, Some(Starting), Stopped, FreezeSent);
    UpdateKeepsTime(cfg, Update(cfg, f1, now, Some(Starting), Stopped, FreezeSent).0, now, Some(Started), Stopped, FreezeSent);
    UpdateKeepsTime(cfg, t1, now, Some(Starting), Stopping, StopSent);
    UpdateKeepsTime(cfg, Update(cfg, t1, now, Some(Starting), Stopping, StopSent).0, now, Some(Started), Stopping, StopSent);
    hide Update, Timed;
  }

  lemma PollIsQuiet(cfg: Config, s: Server, now: int, poll: Poll)
    requires Timed(cfg, s, now)
    ensures Quiet(cfg, s, AfterPoll(cfg, s, now, poll), now)
  {
    hide Deadline;
  }

  lemma QuietKeepsJustified(cfg: Config, s: Server, t: Server, now: int)
    requires Justified(cfg, s) && Quiet(cfg, s, t, now)
    ensures Justified(cfg, t)
  {
    forall i | 0 <= i < |t.signals|
      ensures KillInTime(cfg, t.signals[i])
    {
      if i < |s.signals| {
        assert t.signals[i] == t.signals[..|s.signals|][i] == s.signals[i];
      }
    }
    forall i | 0 <= i < |t.hops|
      ensures ExpiryInTime(cfg, t.hops[i])
    {
      if i < |s.hops| {
        assert t.hops[i] == t.hops[..|s.hops|][i] == s.hops[i];
      }
    }
  }

  lemma BedtimeJustified(cfg: Config, s: Server, now: int, env: StopEnv)
    requires Timed(cfg, s, now) && Justified(cfg, s)
    ensures var t := AfterBedtime(cfg, s, now, env); Timed(cfg, t, now) && Justified(cfg, t)
  {
    if SleepDue(cfg, s, now) {
      var z := Sleep(now, s.state, s.since, s.playersSeen, if s.players.Some? then s.players.value else 0);
      assert SleepInTime(cfg, z);
      var decided := s.(sleeps := s.sleeps + [z]);
      StopIsQuiet(cfg, decided, now, env);
      QuietKeepsJustified(cfg, decided, AfterStop(cfg, decided, now, env).0, now);
    }
  }

  lemma DeadlineJustified(cfg: Config, s: Server, now: int)
    requires Timed(cfg, s, now) && Justified(cfg, s)
    ensures var t := AfterDeadline(cfg, s, now); Timed(cfg, t, now) && Justified(cfg, t)
  {
    UpdateKeepsTime(cfg, s, now, Some(Starting), Stopped, Expired);
    if KillDue(s, now) && !cfg.controllerManaged {
      assert KillInTime(cfg, Signal(Kill, s.pid, now, s.state, s.since));
    }
    if KillDue(s, now) && s.state == Starting {
      assert ExpiryInTime(cfg, Hop(Starting, Stopped, Expired, now, s.since));
    }
    hide Update;
  }

  lemma StepJustified(cfg: Config, s: Server, ev: Event)
    requires Timed(cfg, s, ev.now) && Justified(cfg, s)
    ensures Timed(cfg, Next(cfg, s, ev), ev.now) && Justified(cfg, Next(cfg, s, ev))
  {
    var now := ev.now;
    match ev
    case Polled(_, poll) =>
      PollIsQuiet(cfg, s, now, poll);
      QuietKeepsJustified(cfg, s, AfterPoll(cfg, s, now, poll), now);
    case Bedtime(_, env) =>
      BedtimeJustified(cfg, s, now, env);
    case DeadlineCheck(_) =>
      DeadlineJustified(cfg, s, now);
    case StartRequest(_) =>
      StartIsQuiet(cfg, s, now);
      QuietKeepsJustified(cfg, s, AfterStart(cfg, s, now).0, now);
    case StopRequest(_, env) =>
      StopIsQuiet(cfg, s, now, env);
      QuietKeepsJustified(cfg, s, AfterStop(cfg, s, now, env).0, now);
    case CooledDown(_, crashed) =>
      hide AfterStart;
      var t := Update(cfg, s, now, None, Stopped, ProcessGone).0;
      UpdateKeepsTime(cfg, s, now, None, Stopped, ProcessGone);
      StartIsQuiet(cfg, t, now);
      QuietKeepsJustified(cfg, t, AfterStart(cfg, t, now).0, now);
    case _ =>
  }

  ghost predicate Monotone(from: int, events: seq<Event>) {
    && (events != [] ==> from <= events[0].now)
    && forall i :: 0 < i < |events| ==> events[i - 1].now <= events[i].now
  }

  function LastTime(from: int, events: seq<Event>): int {
    if events == [] then from else events[|events| - 1].now
  }

  /** Sleep and kill timing over whole runs with monotone time: the kill deadline is always that of
      the current state and its entry time, no kill was ever sent early, no start expired early, no sleep ever chosen early. */
  lemma {:induction false} TimingRun(cfg: Config, s: Server, from: int, events: seq<Event>)
    requires Timed(cfg, s, from) && Justified(cfg, s) && Monotone(from, events)
    ensures Timed(cfg, Run(cfg, s, events), LastTime(from, events)) && Justified(cfg, Run(cfg, s, events))
    decreases events
  {
    if events != [] {
      assert Timed(cfg, s, events[0].now);
      StepJustified(cfg, s, events[0]);
      hide Next, Timed, Justified;
      TimingRun(cfg, Next(cfg, s, events[0]), events[0].now, events[1..]);
    }
  }

  lemma SleepAndKillTiming(cfg: Config, events: seq<Event>)
    requires Monotone(0, events)
    ensures var s := Run(cfg, NewServer(), events);
            && (s.killAt.Some? <==> (s.state == Starting || s.state == Stopping) && TimeoutOf(cfg, s.state) > 0)
            && (s.killAt.Some? ==> s.killAt.value == s.since + TimeoutOf(cfg, s.state) * SECOND)
            && (forall i :: 0 <= i < |s.signals| ==> KillInTime(cfg, s.signals[i]))
            && (forall i :: 0 <= i < |s.sleeps| ==> SleepInTime(cfg, s.sleeps[i]))
            && (forall i :: 0 <= i < |s.hops| ==> ExpiryInTime(cfg, s.hops[i]))
  {
    TimingRun(cfg, NewServer(), 0, events);
  }

  /** The guarded fields of ServerState. The ghost fields are the history; `now` is the clock's reading
      at the call, and `env` and `poll` what the outside answers. */
  class ServerState {
    var state: State
    var killAt: Option<int>
    var lastActive: Option<int>
    var keepOnline: Option<int>
    var players: Option<nat>
    var pid: nat
    ghost var since: int
    ghost var playersSeen: Option<int>
    ghost var hops: seq<Hop>
    ghost var signals: seq<Signal>
    ghost var sleeps: seq<Sleep>

    constructor ()
      ensures View() == NewServer()
    {
      state, killAt, lastActive, keepOnline, players, pid := Stopped, None, None, None, None, 0;
      since, playersSeen, hops, signals, sleeps := 0, None, [], [], [];
    }

    ghost function View(): Server
      reads this
    {
      Server(state, killAt, lastActive, keepOnline, players, pid, since, playersSeen, hops, signals, sleeps)
    }

    static method NewDeadline(cfg: Config, now: int, to: State) returns (deadline: Option<int>)
      ensures deadline == Deadline(cfg, to, now)
    {
      deadline := None;
      match to {
        case Starting => if cfg.startTimeout > 0 { deadline := Some(now + cfg.startTimeout * SECOND); }
        case Stopping => if cfg.stopTimeout > 0 { deadline := Some(now + cfg.stopTimeout * SECOND); }
        case _ =>
      }
    }

    method KeepOnlineFor(cfg: Config, now: int)
      modifies this`keepOnline
      ensures keepOnline == OnlineUntil(cfg, now)
    {
      if cfg.minOnlineTime > 0 {
        keepOnline := Some(now + cfg.minOnlineTime * SECOND);
      } else {
        keepOnline := None;
      }
    }

    method UpdateStateFrom(cfg: Config, now: int, from: Option<State>, to: State, ghost cause: Cause) returns (changed: bool)
      modifies this
      ensures (View(), changed) == Update(cfg, old(View()), now, from, to, cause)
    {
      hide Deadline, OnlineUntil;
      var before := state;
      if from.Some? && before != from.value {
        return false;
      }
      if before == to {
        return false;
      }
      state := to;
      hops := hops + [Hop(before, to, cause, now, since)];
      since := now;
      killAt := NewDeadline(cfg, now, to);
      if to == Started {
        lastActive := Some(now);
        KeepOnlineFor(cfg, now);
      }
      return true;
    }

    method UpdateStatus(cfg: Config, now: int, status: Option<nat>)
      modifies this
      ensures View() == AfterStatus(cfg, old(View()), now, status)
    {
      hide Update;
      if (state == Stopped || state == Starting) && status.Some? {
        var _ := UpdateStateFrom(cfg, now, None, Started, Answered);
      } else if state == Started && status.None? {
        var _ := UpdateStateFrom(cfg, now, None, Stopped, Unanswered);
      }
      if status.Some? {
        if status.value > 0 {
          lastActive := Some(now);
          playersSeen := Some(now);
        }
        players := status;
      }
    }

    method UnfreezeServerSignal(cfg: Config, now: int) returns (sent: bool)
      modifies this
      ensures (View(), sent) == AfterUnfreeze(cfg, old(View()), now)
    {
      hide Update;
      if cfg.controllerManaged || pid == 0 {
        return false;
      }
      signals := signals + [Signal(Unfreeze, pid, now, state, since)];
      var _ := UpdateStateFrom(cfg, now, Some(Stopping), Starting, Wake);
      var _ := UpdateStateFrom(cfg, now, Some(Stopped), Starting, Wake);
      return true;
    }

    method FreezeServerSignal(cfg: Config, now: int) returns (sent: bool)
      modifies this
      ensures (View(), sent) == AfterFreeze(cfg, old(View()), now)
    {
      hide Update;
      if pid == 0 {
        return false;
      }
      signals := signals + [Signal(Freeze, pid, now, state, since)];
      var _ := UpdateStateFrom(cfg, now, Some(Starting), Stopped, FreezeSent);
      var _ := UpdateStateFrom(cfg, now, Some(Started), Stopped, FreezeSent);
      return true;
    }

    method StopServerSignal(cfg: Config, now: int, delivered: bool) returns (sent: bool)
      modifies this
      ensures (View(), sent) == AfterTerm(cfg, old(View()), now, delivered)
    {
      hide Update;
      if pid == 0 {
        return false;
      }
      signals := signals + [Signal(Term, pid, now, state, since)];
      if !delivered {
        return false;
      }
      var _ := UpdateStateFrom(cfg, now, Some(Starting), Stopping, StopSent);
      var _ := UpdateStateFrom(cfg, now, Some(Started), Stopping, StopSent);
      return true;
    }

    /** `started` is whether the server moved; launching the process is a later `Spawned` event. */
    method Start(cfg: Config, now: int) returns (started: bool)
      modifies this
      ensures (View(), started) == AfterStart(cfg, old(View()), now)
    {
      hide Update, AfterUnfreeze;
      if cfg.controllerManaged && cfg.freezeProcess {
        return false;
      }
      var moved := UpdateStateFrom(cfg, now, Some(Stopped), Starting, Wake);
      if !moved {
        return false;
      }
      if cfg.freezeProcess {
        var _ := UnfreezeServerSignal(cfg, now);
      }
      return true;
    }

    method Stop(cfg: Config, now: int, env: StopEnv) returns (stopped: bool)
      modifies this
      ensures (View(), stopped) == AfterStop(cfg, old(View()), now, env)
    {
      hide Update, AfterTerm;
      if cfg.controllerManaged {
        return false;
      }
      if cfg.freezeProcess {
        var frozen := FreezeServerSignal(cfg, now);
        if frozen {
          return true;
        }
      }
      if state == Started && cfg.rconEnabled && env.rconStops {
        var _ := UpdateStateFrom(cfg, now, None, Stopping, StopSent);
        return true;
      }
      stopped := StopServerSignal(cfg, now, env.termDelivered);
    }

    method ForceKill(cfg: Config, now: int) returns (sent: bool)
      modifies this
      ensures (View(), sent) == AfterForceKill(cfg, old(View()), now)
    {
      if cfg.controllerManaged {
        return false;
      }
      if pid != 0 {
        signals := signals + [Signal(Kill, pid, now, state, since)];
        return true;
      }
      return false;
    }

    method ShouldSleep(cfg: Config, now: int) returns (sleep: bool)
      ensures sleep == SleepDue(cfg, View(), now)
    {
      if cfg.controllerManaged {
        return false;
      }
      if state != Started {
        return false;
      }
      if players.Some? && players.value > 0 {
        return false;
      }
      if keepOnline.Some? && !(keepOnline.value < now) {
        return false;
      }
      if lastActive.Some? {
        return now - lastActive.value >= cfg.sleepAfter * SECOND;
      }
      return false;
    }

    method ShouldKill(now: int) returns (kill: bool)
      ensures kill == KillDue(View(), now)
    {
      return killAt.Some? && !(killAt.value > now);
    }

    method ExpireControllerManagedTransition(cfg: Config, now: int) returns (expired: bool)
      modifies this
      ensures (View(), expired) == AfterExpire(cfg, old(View()), now)
    {
      hide Update;
      var due := ShouldKill(now);
      if !cfg.controllerManaged || !due {
        return false;
      }
      expired := UpdateStateFrom(cfg, now, Some(Starting), Stopped, Expired);
    }

    /** One tick of MonitorServer: three events in a row. */
    method MonitorTick(cfg: Config, polled: int, poll: Poll, bedtime: int, env: StopEnv, checked: int)
      modifies this
      ensures View() == AfterDeadline(cfg, AfterBedtime(cfg, AfterPoll(cfg, old(View()), polled, poll), bedtime, env), checked)
    {
      hide AfterStatus, AfterStop, AfterExpire, AfterForceKill, SleepDue, KillDue;
      match poll {
        case Reply(n) => UpdateStatus(cfg, polled, Some(n));
        case NoReply => UpdateStatus(cfg, polled, None);
        case PingOnly =>
      }
      var sleep := ShouldSleep(cfg, bedtime);
      if sleep {
        sleeps := sleeps + [Sleep(bedtime, state, since, playersSeen, if players.Some? then players.value else 0)];
        var _ := Stop(cfg, bedtime, env);
      }
      var kill := ShouldKill(checked);
      if kill {
        if cfg.controllerManaged {
          var _ := ExpireControllerManagedTransition(cfg, checked);
        } else {
          var _ := ForceKill(cfg, checked);
        }
      }
    }
  }
}
