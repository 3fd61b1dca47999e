/** server.go and monitor.go: what must happen. Each event has exactly the effect stated here, in terms of
    the state, the time it was entered and the players last seen, with times in nanoseconds. */
module LifecycleLaws {
  import opened Bytes
  import opened StateWatch
  import opened Lifecycle

  // ---- one event ----

  /** A status reply starts any server that is not stopping, and ends its deadline; a missing reply stops
      a started one; a ping alone changes nothing. */
  lemma PollExactly(cfg: Config, s: Server, now: int, poll: Poll)
    requires Timed(cfg, s, now)
    ensures var t := Lifecycle.Next(cfg, s, Polled(now, poll));
            && (poll.Reply? ==>
                  && t.state == (if s.state == Stopping then Stopping else Started)
                  && (t.state == Started ==> t.killAt == None)
                  && t.players == Some(poll.players)
                  && t.since == (if s.state == Stopped || s.state == Starting then now else s.since)
                  && t.playersSeen == if poll.players > 0 then Some(now) else s.playersSeen)
            && (poll.NoReply? ==>
                  && t.state == (if s.state == Started then Stopped else s.state)
                  && t.players == s.players && t.playersSeen == s.playersSeen
                  && (s.state != Started ==> t == s))
            && (poll.PingOnly? ==> t == s)
            && t.signals == s.signals && t.sleeps == s.sleeps && t.pid == s.pid
  {
  }

  /** Sleep is chosen exactly for an unmanaged, started, empty server that is past its minimum online time and
      has been idle for long enough; otherwise nothing happens. */
  lemma BedtimeExactly(cfg: Config, s: Server, now: int, env: StopEnv)
    requires Timed(cfg, s, now)
    ensures var t := Lifecycle.Next(cfg, s, Bedtime(now, env));
            if !cfg.controllerManaged && s.state == Started && (s.players == None || s.players == Some(0))
               && (cfg.minOnlineTime == 0 || now > s.since + cfg.minOnlineTime * 1_000_000_000)
               && now >= IdleSince(s) + cfg.sleepAfter * 1_000_000_000
            then t.sleeps == s.sleeps + [Sleep(now, Started, s.since, s.playersSeen, 0)] && StoppedBy(cfg, s, t, now, env)
            else t == s
  {
    if SleepDue(cfg, s, now) {
      StopExactly(cfg, s.(sleeps := s.sleeps + [Sleep(now, Started, s.since, s.playersSeen, 0)]), now, env);
    }
    hide AfterStop, Deadline;
  }

  /** What stopping does to an unmanaged server: freeze it if that is configured and the process is known; else
      stop it over RCON if it is started and that works; else signal a known process. Frozen servers are
      stopped, others are stopping once the request is out. */
  ghost predicate StoppedBy(cfg: Config, s: Server, t: Server, now: int, env: StopEnv) {
    var running := s.state == Starting || s.state == Started;
    if cfg.freezeProcess && s.pid != 0 then
      && t.state == (if running then Stopped else s.state)
      && t.signals == s.signals + [Signal(Freeze, s.pid, now, s.state, s.since)]
    else if s.state == Started && cfg.rconEnabled && env.rconStops then
      t.state == Stopping && t.signals == s.signals && t.killAt == Deadline(cfg, Stopping, now)
    else if s.pid != 0 then
      && t.signals == s.signals + [Signal(Term, s.pid, now, s.state, s.since)]
      && t.state == (if running && env.termDelivered then Stopping else s.state)
      && (running && env.termDelivered ==> t.killAt == Deadline(cfg, Stopping, now))
    else t.state == s.state && t.signals == s.signals
  }

  lemma StopExactly(cfg: Config, s: Server, now: int, env: StopEnv)
    ensures var t := Lifecycle.Next(cfg, s, StopRequest(now, env));
            if cfg.controllerManaged then t == s else StoppedBy(cfg, s, t, now, env) && t.sleeps == s.sleeps && t.pid == s.pid
  {
    hide Deadline;
  }

  /** A start is begun exactly from Stopped, with its deadline, and unfreezes a known process where that is
      configured; freezing and a controller exclude each other. */
  lemma StartExactly(cfg: Config, s: Server, now: int)
    ensures var t := Lifecycle.Next(cfg, s, StartRequest(now));
            if s.state != Stopped || (cfg.controllerManaged && cfg.freezeProcess) then t == s
            else
              && t.state == Starting && t.since == now
              && t.killAt == (if cfg.startTimeout > 0 then Some(now + cfg.startTimeout * 1_000_000_000) else None)
              && t.signals == s.signals + (if cfg.freezeProcess && s.pid != 0 then [Signal(Unfreeze, s.pid, now, Starting, now)] else [])
              && t.players == s.players && t.pid == s.pid && t.sleeps == s.sleeps
  {
  }

  /** Unfreezing on its own, of a process that is stopping or stopped. */
  lemma UnfreezeExactly(cfg: Config, s: Server, now: int)
    ensures var (t, sent) := AfterUnfreeze(cfg, s, now);
            && (sent <==> !cfg.controllerManaged && s.pid != 0)
            && (!sent ==> t == s)
            && (sent ==>
                  && t.signals == s.signals + [Signal(Unfreeze, s.pid, now, s.state, s.since)]
                  && t.state == if s.state == Stopping || s.state == Stopped then Starting else s.state)
  {
    hide Deadline;
  }

  /** At a deadline, and only then, a known process is killed, or the start of a managed server expires. */
  lemma DeadlineExactly(cfg: Config, s: Server, now: int)
    requires Timed(cfg, s, now)
    ensures var t := Lifecycle.Next(cfg, s, DeadlineCheck(now));
            var due :=
              || (s.state == Starting && cfg.startTimeout > 0 && now >= s.since + cfg.startTimeout * 1_000_000_000)
              || (s.state == Stopping && cfg.stopTimeout > 0 && now >= s.since + cfg.stopTimeout * 1_000_000_000);
            if !due then t == s
            else if !cfg.controllerManaged then
              t == s.(signals := s.signals + (if s.pid != 0 then [Signal(Kill, s.pid, now, s.state, s.since)] else []))
            else if s.state == Starting then
              && t.state == Stopped && t.killAt == None && t.since == now && t.signals == s.signals
              && t.hops == s.hops + [Hop(Starting, Stopped, Expired, now, s.since)]
            else t == s
  {
  }

  /** The process goroutine's end stops an unmanaged server, and starts it again after a crash where that is
      configured. */
  lemma ProcessEndExactly(cfg: Config, s: Server, now: int, crashed: bool)
    ensures var t := Lifecycle.Next(cfg, s, CooledDown(now, crashed));
            if cfg.controllerManaged then t == s
            else
              && t.state == (if crashed && cfg.wakeOnCrash then Starting else Stopped)
              && (s.state == Stopped && !(crashed && cfg.wakeOnCrash) ==> t == s)
  {
    hide Deadline;
  }

  /** Seeding a status counts only while there is none; the PID is that of the last process spawned. */
  lemma BookkeepingExactly(cfg: Config, s: Server, now: int, n: nat)
    ensures Lifecycle.Next(cfg, s, Seed(now, n)) == s.(players := if s.players == None then Some(n) else s.players)
    ensures Lifecycle.Next(cfg, s, Spawned(now, n)) == s.(pid := n)
    ensures Lifecycle.Next(cfg, s, Exited(now)) == s.(pid := 0)
  {
  }

  /** What the operations report: a start that was begun, a stop whose request went out, a signal that was
      sent, an expiry that happened. */
  lemma ReportsExactly(cfg: Config, s: Server, now: int, env: StopEnv)
    ensures AfterStart(cfg, s, now).1 <==> s.state == Stopped && !(cfg.controllerManaged && cfg.freezeProcess)
    ensures AfterStop(cfg, s, now, env).1 <==>
              && !cfg.controllerManaged
              && (|| (cfg.freezeProcess && s.pid != 0)
                  || (s.state == Started && cfg.rconEnabled && env.rconStops)
                  || (s.pid != 0 && env.termDelivered))
    ensures AfterFreeze(cfg, s, now).1 <==> s.pid != 0
    ensures AfterTerm(cfg, s, now, env.termDelivered).1 <==> s.pid != 0 && env.termDelivered
    ensures s.pid == 0 ==> AfterFreeze(cfg, s, now).0 == s && AfterTerm(cfg, s, now, env.termDelivered).0 == s
    ensures AfterForceKill(cfg, s, now).1 <==> !cfg.controllerManaged && s.pid != 0
    ensures AfterExpire(cfg, s, now).1 <==> cfg.controllerManaged && s.state == Starting && KillDue(s, now)
    ensures AfterExpire(cfg, s, now).1 <==> AfterExpire(cfg, s, now).0 != s
  {
    hide Deadline;
    var t := AfterExpire(cfg, s, now).0;
    assert |t.hops| > |s.hops| ==> t != s;
  }

  /** A new server is stopped and knows of nothing. */
  lemma NewServerIsIdle(cfg: Config)
    ensures var s := NewServer();
            && s.state == Stopped && s.killAt == None && s.players == None && s.pid == 0
            && !SleepDue(cfg, s, s.since) && !KillDue(s, s.since) && AfterForceKill(cfg, s, s.since).0 == s
            && s.signals == [] && s.hops == [] && s.sleeps == []
  {
  }

  // ---- runs ----

  /** The transitions of a history follow one another, none of them leads to where it came from, and the last
      one led to the current state. */
  ghost predicate Chained(s: Server) {
    && (forall i :: 0 <= i < |s.hops| ==> s.hops[i].from != s.hops[i].to)
    && (forall i :: 0 < i < |s.hops| ==> s.hops[i].from == s.hops[i - 1].to)
    && (s.hops != [] ==> s.hops[|s.hops| - 1].to == s.state)
  }

  lemma UpdateChains(cfg: Config, s: Server, now: int, from: Option<State>, to: State, cause: Cause)
    requires Chained(s)
    ensures Chained(Update(cfg, s, now, from, to, cause).0)
    ensures var (t, changed) := Update(cfg, s, now, from, to, cause);
            && (changed <==> s.state != to && (from == None || from == Some(s.state)))
            && (changed ==> t.state == to) && (!changed ==> t == s)
  {
    hide Deadline;
  }

  lemma StepChains(cfg: Config, s: Server, ev: Event)
    requires Chained(s)
    ensures Chained(Lifecycle.Next(cfg, s, ev))
  {
    hide Deadline;
    match ev
    case CooledDown(now, _) =>
      UpdateChains(cfg, s, now, None, Stopped, ProcessGone);
      hide Update;
      StartChains(cfg, Update(cfg, s, now, None, Stopped, ProcessGone).0, now);
    case StartRequest(now) => StartChains(cfg, s, now);
    case StopRequest(now, env) => StopChains(cfg, s, now, env);
    case Bedtime(now, env) =>
      StopChains(cfg, s.(sleeps := s.sleeps + [Sleep(now, s.state, s.since, s.playersSeen, if s.players.Some? then s.players.value else 0)]), now, env);
      hide AfterStop;
    case Polled(now, _) =>
      UpdateChains(cfg, s, now, None, Started, Answered);
      UpdateChains(cfg, s, now, None, Stopped, Unanswered);
      hide Update;
    case DeadlineCheck(now) =>
      UpdateChains(cfg, s, now, Some(Starting), Stopped, Expired);
      hide Update;
    case _ =>
  }

  lemma StartChains(cfg: Config, s: Server, now: int)
    requires Chained(s)
    ensures Chained(AfterStart(cfg, s, now).0)
  {
    hide Update;
    UpdateChains(cfg, s, now, Some(Stopped), Starting, Wake);
    var s1 := Update(cfg, s, now, Some(Stopped), Starting, Wake).0;
    var s2 := Send(s1, now, Unfreeze);
    UpdateChains(cfg, s2, now, Some(Stopping), Starting, Wake);
    UpdateChains(cfg, Update(cfg, s2, now, Some(Stopping), Starting, Wake).0, now, Some(Stopped), Starting, Wake);
  }

  lemma StopChains(cfg: Config, s: Server, now: int, env: StopEnv)
    requires Chained(s)
    ensures Chained(AfterStop(cfg, s, now, env).0)
  {
    hide Update;
    UpdateChains(cfg, s, now, None, Stopping, StopSent);
    var f, k := Send(s, now, Freeze), Send(s, now, Term);
    UpdateChains(cfg, f, now, Some(Starting), Stopped, FreezeSent);
    UpdateChains(cfg, Update(cfg, f, now, Some(Starting), Stopped, FreezeSent).0, now, Some(Started), Stopped, FreezeSent);
    UpdateChains(cfg, k, now, Some(Starting), Stopping, StopSent);
    UpdateChains(cfg, Update(cfg, k, now, Some(Starting), Stopping, StopSent).0, now, Some(Started), Stopping, StopSent);
  }

  lemma {:induction false} RunChains(cfg: Config, s: Server, events: seq<Event>)
    requires Chained(s)
    ensures Chained(Lifecycle.Run(cfg, s, events))
    decreases events
  {
    hide Lifecycle.Next, Chained;
    if events != [] {
      StepChains(cfg, s, events[0]);
      RunChains(cfg, Lifecycle.Next(cfg, s, events[0]), events[1..]);
    }
  }

  /** Nothing that stops a server: no stop request, no end of the process, no missing reply. */
  predicate Calm(ev: Event) {
    !ev.StopRequest? && !ev.CooledDown? && !(ev.Polled? && ev.poll.NoReply?)
  }

  lemma {:induction false} SleepsGrow(cfg: Config, s: Server, events: seq<Event>)
    ensures |s.sleeps| <= |Lifecycle.Run(cfg, s, events).sleeps|
    decreases events
  {
    if events != [] {
      SleepsGrowOnce(cfg, s, events[0]);
      hide Lifecycle.Next;
      SleepsGrow(cfg, Lifecycle.Next(cfg, s, events[0]), events[1..]);
    }
  }

  lemma SleepsGrowOnce(cfg: Config, s: Server, ev: Event)
    ensures |s.sleeps| <= |Lifecycle.Next(cfg, s, ev).sleeps|
  {
    hide Deadline;
  }

  /** A started server stays so, with no signal and no transition, as long as nothing stops it and it is not
      put to sleep. */
  lemma {:induction false} StartedStays(cfg: Config, s: Server, events: seq<Event>)
    requires s.state == Started && s.killAt == None && forall i :: 0 <= i < |events| ==> Calm(events[i])
    ensures var t := Lifecycle.Run(cfg, s, events);
            |t.sleeps| == |s.sleeps| ==> t.state == Started && t.killAt == None && t.signals == s.signals && t.hops == s.hops
    decreases events
  {
    if events != [] {
      var next := Lifecycle.Next(cfg, s, events[0]);
      CalmStep(cfg, s, events[0]);
      SleepsGrowOnce(cfg, s, events[0]);
      SleepsGrow(cfg, next, events[1..]);
      hide Lifecycle.Next;
      if |next.sleeps| == |s.sleeps| {
        StartedStays(cfg, next, events[1..]);
      }
    }
  }

  lemma CalmStep(cfg: Config, s: Server, ev: Event)
    requires s.state == Started && s.killAt == None && Calm(ev)
    ensures var t := Lifecycle.Next(cfg, s, ev);
            |t.sleeps| == |s.sleeps| ==> t.state == Started && t.killAt == None && t.signals == s.signals && t.hops == s.hops
  {
    if ev.Bedtime? && SleepDue(cfg, s, ev.now) {
      StopExactly(cfg, s.(sleeps := s.sleeps + [Sleep(ev.now, s.state, s.since, s.playersSeen, if s.players.Some? then s.players.value else 0)]), ev.now, ev.env);
    }
  }

  /** An answering server is safe: once it has replied and as long as nothing stops it, it is neither killed nor
      expired, however long it took or takes. */
  lemma AnsweringServerIsSafe(cfg: Config, s: Server, now: int, players: nat, events: seq<Event>)
    requires Timed(cfg, s, now) && s.state != Stopping && forall i :: 0 <= i < |events| ==> Calm(events[i])
    ensures var first := Lifecycle.Next(cfg, s, Polled(now, Reply(players)));
            var t := Lifecycle.Run(cfg, first, events);
            |t.sleeps| == |first.sleeps| ==> t.state == Started && t.signals == s.signals && t.hops == first.hops
  {
    PollExactly(cfg, s, now, Reply(players));
    hide Lifecycle.Next;
    StartedStays(cfg, Lifecycle.Next(cfg, s, Polled(now, Reply(players))), events);
  }

  /** What may happen to a server that does not come up: no reply, and nobody stops it. */
  predicate Silence(deadline: int, ev: Event) {
    || (ev.Polled? && !ev.poll.Reply?) || ev.Bedtime? || ev.StartRequest? || ev.Seed?
    || (ev.Spawned? && ev.pid != 0) || (ev.DeadlineCheck? && ev.now < deadline)
  }

  lemma SilentStep(cfg: Config, s: Server, deadline: int, ev: Event)
    requires s.state == Starting && s.killAt == Some(deadline) && Silence(deadline, ev)
    ensures var t := Lifecycle.Next(cfg, s, ev);
            && t.state == Starting && t.killAt == s.killAt && t.since == s.since && t.signals == s.signals
            && (s.pid != 0 ==> t.pid != 0) && (ev.Spawned? ==> t.pid != 0)
  {
  }

  lemma {:induction false} SilenceKeepsStarting(cfg: Config, s: Server, deadline: int, events: seq<Event>)
    requires s.state == Starting && s.killAt == Some(deadline) && forall i :: 0 <= i < |events| ==> Silence(deadline, events[i])
    ensures var t := Lifecycle.Run(cfg, s, events);
            && t.state == Starting && t.killAt == s.killAt && t.since == s.since && t.signals == s.signals
            && (s.pid != 0 || (exists i :: 0 <= i < |events| && events[i].Spawned?) ==> t.pid != 0)
    decreases events
  {
    if events != [] {
      var next := Lifecycle.Next(cfg, s, events[0]);
      SilentStep(cfg, s, deadline, events[0]);
      hide Lifecycle.Next, Silence;
      SilenceKeepsStarting(cfg, next, deadline, events[1..]);
      if i :| 0 <= i < |events| && events[i].Spawned? {
        assert i > 0 ==> events[1..][i - 1].Spawned?;
      }
    }
  }

  /** A start that nobody answers ends: its process is killed, or a managed one expires, at the first check at
      or after its timeout. */
  lemma UnansweredStartEnds(cfg: Config, s: Server, now: int, events: seq<Event>, at: int)
    requires s.state == Stopped && cfg.startTimeout > 0 && !cfg.freezeProcess
    requires at >= now + cfg.startTimeout * 1_000_000_000
    requires forall i :: 0 <= i < |events| ==> Silence(now + cfg.startTimeout * 1_000_000_000, events[i])
    requires exists i :: 0 <= i < |events| && events[i].Spawned?
    ensures var waiting := Lifecycle.Run(cfg, Lifecycle.Next(cfg, s, StartRequest(now)), events);
            var t := Lifecycle.Next(cfg, waiting, DeadlineCheck(at));
            && waiting.state == Starting
            && (cfg.controllerManaged ==> t.state == Stopped && t.signals == s.signals)
            && (!cfg.controllerManaged ==>
                  waiting.pid != 0 && t.signals == s.signals + [Signal(Kill, waiting.pid, at, Starting, now)])
  {
    StartExactly(cfg, s, now);
    var begun := Lifecycle.Next(cfg, s, StartRequest(now));
    assert begun.signals == s.signals;
    SilenceKeepsStarting(cfg, begun, now + cfg.startTimeout * 1_000_000_000, events);
  }
}
