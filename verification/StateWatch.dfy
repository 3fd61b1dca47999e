/** server.go and join_hold.go: watching the server state through one-slot conflating channels.

    Micro-steps: a transition sets the state under stateMu, then takes subsMu and visits every
    subscriber with up to three non-blocking channel operations. Subscribing also holds subsMu, reads
    the state and sends it. Receivers take from their channel at any point in between. */
module StateWatch {
  import opened Bytes

  datatype State = Stopped | Starting | Started | Stopping

  /** A channel of capacity one and everything its receiver has taken from it. */
  datatype Chan = Chan(slot: Option<State>, seen: seq<State>) {
    /** The pending value, or else the last one delivered. */
    function Latest(): Option<State> {
      if slot.Some? then slot else if seen == [] then None else Some(seen[|seen| - 1])
    }
  }

  /** Where the broadcaster is with subscriber `next`: the first send, the drain, the second send. */
  datatype Visit = TrySend | Drain | Resend

  /** Who holds subsMu. */
  datatype Lock =
    | Free
    | Subscribing(first: Option<State>)
    | Broadcasting(value: State, next: nat, visit: Visit)

  /** `flights` are the transitions that have set the state and not yet begun to broadcast, in the
      order in which they set it. `cast` is the value of the broadcast begun last and `told` the
      number of subscribers it found. */
  datatype Watch = Watch(state: State, subs: seq<Chan>, flights: seq<State>, lock: Lock, cast: Option<State>, told: nat)

  datatype Action =
    | Set(state: State)
    | TakeLock(flight: nat)
    | Visit
    | Register
    | ReadState
    | SendFirst
    | Receive(k: nat)

  function Init(): Watch {
    Watch(Stopped, [], [], Free, None, 0)
  }

  /** One operation of the broadcaster, and whether it moves on to the next subscriber. */
  function Visited(c: Chan, v: State, visit: Visit): (Chan, Visit, bool) {
    match visit
    case TrySend => if c.slot.None? then (c.(slot := Some(v)), TrySend, true) else (c, Drain, false)
    case Drain => (c.(slot := None), Resend, false)
    case Resend => if c.slot.None? then (c.(slot := Some(v)), TrySend, true) else (c, TrySend, true)
  }

  function AfterVisit(w: Watch): Watch
    requires w.lock.Broadcasting?
  {
    var Broadcasting(v, i, visit) := w.lock;
    if i >= |w.subs| then w.(lock := Free)
    else
      var (c, next, onward) := Visited(w.subs[i], v, visit);
      w.(subs := w.subs[i := c], lock := Broadcasting(v, if onward then i + 1 else i, next))
  }

  /** One step; an action that nobody is ready for does nothing. */
  function Next(w: Watch, a: Action): Watch {
    match a
    case Set(s) => if s == w.state then w else w.(state := s, flights := w.flights + [s])
    case TakeLock(j) =>
      if w.lock.Free? && j < |w.flights|
      then w.(flights := w.flights[..j] + w.flights[j + 1..], lock := Broadcasting(w.flights[j], 0, TrySend),
              cast := Some(w.flights[j]), told := |w.subs|)
      else w
    case Visit => if w.lock.Broadcasting? then AfterVisit(w) else w
    case Register =>
      if w.lock.Free? then w.(subs := w.subs + [Chan(None, [])], lock := Subscribing(None)) else w
    case ReadState =>
      if w.lock == Subscribing(None) then w.(lock := Subscribing(Some(w.state))) else w
    case SendFirst =>
      if w.lock.Subscribing? && w.lock.first.Some? && w.subs != [] && w.subs[|w.subs| - 1].slot.None?
      then w.(subs := w.subs[|w.subs| - 1 := w.subs[|w.subs| - 1].(slot := w.lock.first)], lock := Free) else w
    case Receive(k) =>
      if k < |w.subs| && w.subs[k].slot.Some?
      then w.(subs := w.subs[k := Chan(None, w.subs[k].seen + [w.subs[k].slot.value])]) else w
  }

  function Run(w: Watch, trace: seq<Action>): Watch
    decreases trace
  {
    if trace == [] then w else Run(Next(w, trace[0]), trace[1..])
  }

  predicate InFlight(w: Watch) {
    w.flights != [] || w.lock.Broadcasting?
  }

  /** No change is on its way and nobody is subscribing. */
  predicate Settled(w: Watch) {
    !InFlight(w) && w.lock.Free?
  }

  /** What subscriber `k` must hold, as far as the locks tell. */
  ghost predicate Knows(w: Watch, k: nat)
    requires k < |w.subs|
  {
    var upTo := if w.lock.Broadcasting? then w.lock.next else w.told;
    && (k < upTo ==> w.subs[k].Latest() == w.cast)
    && (w.told <= k && w.flights == [] && !(w.lock.Subscribing? && k == |w.subs| - 1) ==>
          w.subs[k].Latest() == Some(w.state))
  }

  ghost predicate Inv(w: Watch) {
    && w.told <= |w.subs|
    && (w.told > 0 ==> w.cast.Some?)
    && (forall k :: 0 <= k < |w.subs| ==> Knows(w, k))
    && (w.lock.Broadcasting? ==>
          && w.cast == Some(w.lock.value) && w.told == |w.subs| && w.lock.next <= |w.subs|
          && (w.lock.visit == Drain ==> w.lock.next < |w.subs|)
          && (w.lock.visit == Resend ==> w.lock.next < |w.subs| && w.subs[w.lock.next].slot.None?))
    && (w.lock.Subscribing? ==>
          && w.told < |w.subs| && w.subs[|w.subs| - 1] == Chan(None, [])
          && (w.lock.first.Some? && w.flights == [] ==> w.lock.first.value == w.state))
  }

  lemma StepKeepsInv(w: Watch, a: Action)
    requires Inv(w)
    ensures Inv(Next(w, a))
  {
    var t := Next(w, a);
    if a.Receive? && a.k < |w.subs| && w.subs[a.k].slot.Some? {
      assert t.subs[a.k].Latest() == w.subs[a.k].Latest();
    }
    forall k | 0 <= k < |t.subs|
      ensures Knows(t, k)
    {
      assert k < |w.subs| ==> Knows(w, k);
    }
  }

  lemma {:induction false} RunKeepsInv(w: Watch, trace: seq<Action>)
    requires Inv(w)
    ensures Inv(Run(w, trace))
    decreases trace
  {
    hide Inv, Next;
    if trace != [] {
      StepKeepsInv(w, trace[0]);
      RunKeepsInv(Next(w, trace[0]), trace[1..]);
    }
  }

  /** Every interleaving whatsoever: once settled, each subscriber that the last broadcast found holds
      that broadcast's value, and each later subscriber the current state. So no state is lost
      exactly if the broadcast begun last carried the current state or found nobody. */
  lemma LostStateExactly(trace: seq<Action>)
    ensures var w := Run(Init(), trace);
            Settled(w) ==>
              && w.told <= |w.subs|
              && (forall k :: 0 <= k < |w.subs| ==> w.subs[k].Latest() == if k < w.told then w.cast else Some(w.state))
              && ((forall k :: 0 <= k < |w.subs| ==> w.subs[k].Latest() == Some(w.state)) <==>
                    w.told == 0 || w.cast == Some(w.state))
  {
    RunKeepsInv(Init(), trace);
    var w := Run(Init(), trace);
    if Settled(w) {
      forall k | 0 <= k < |w.subs|
        ensures w.subs[k].Latest() == if k < w.told then w.cast else Some(w.state)
      {
        assert Knows(w, k);
      }
      if w.told > 0 {
        assert w.subs[0].Latest() == w.cast;
      }
    }
  }

  /** Broadcasts begin in the order in which the states were set; one transition in flight at a time
      is a special case. */
  ghost predicate InOrder(trace: seq<Action>) {
    forall i :: 0 <= i < |trace| && trace[i].TakeLock? ==> trace[i].flight == 0
  }

  ghost predicate LastSetWins(w: Watch) {
    && (w.flights != [] ==> w.flights[|w.flights| - 1] == w.state)
    && (w.flights == [] && w.cast.Some? ==> w.cast == Some(w.state))
  }

  lemma {:induction false} InOrderKeepsLast(w: Watch, trace: seq<Action>)
    requires InOrder(trace) && LastSetWins(w)
    ensures LastSetWins(Run(w, trace))
    decreases trace
  {
    if trace != [] {
      assert trace[0].TakeLock? ==> trace[0].flight == 0;
      InOrderKeepsLast(Next(w, trace[0]), trace[1..]);
    }
  }

  /** No lost state: with broadcasts in order and arbitrary interleaved subscribes and receives, every
      settled subscriber's pending or last delivered value is the current state. */
  lemma NoLostState(trace: seq<Action>, k: nat)
    requires InOrder(trace)
    ensures var w := Run(Init(), trace);
            Settled(w) && k < |w.subs| ==> w.subs[k].Latest() == Some(w.state)
  {
    hide Next;
    LostStateExactly(trace);
    InOrderKeepsLast(Init(), trace);
    RunKeepsInv(Init(), trace);
  }

  /** The broadcaster never finds its channel full on the second send, so that send always lands, and
      a new subscriber's first send never blocks. */
  lemma SendsAlwaysLand(trace: seq<Action>)
    ensures var w := Run(Init(), trace);
            && (w.lock.Broadcasting? && w.lock.visit == Resend ==>
                  w.lock.next < |w.subs| && AfterVisit(w).subs[w.lock.next].slot == Some(w.lock.value))
            && (w.lock.Subscribing? ==> w.subs != [] && w.subs[|w.subs| - 1].slot.None?)
  {
    RunKeepsInv(Init(), trace);
  }

  /** The operations that a broadcaster has still to do: three for each subscriber at most, and the unlock. */
  function Steps(w: Watch): int
    requires w.lock.Broadcasting?
  {
    3 * (|w.subs| - w.lock.next) + 1 - (if w.lock.visit == TrySend then 0 else if w.lock.visit == Drain then 1 else 2)
  }

  function Visits(trace: seq<Action>): nat {
    if trace == [] then 0 else (if trace[0].Visit? then 1 else 0) + Visits(trace[1..])
  }

  lemma VisitProgress(w: Watch, a: Action)
    requires Inv(w) && w.lock.Broadcasting?
    ensures Steps(w) > 0
    ensures var t := Next(w, a);
            if a.Visit? then t.lock.Free? || (t.lock.Broadcasting? && Steps(t) < Steps(w))
            else t.lock == w.lock && Steps(t) == Steps(w)
  {
  }

  /** A broadcast never blocks and ends after three operations of its own for each subscriber, and one more,
      whatever the receivers do meanwhile. */
  lemma {:induction false} BroadcastEnds(w: Watch, trace: seq<Action>)
    requires Inv(w) && w.lock.Broadcasting? && Visits(trace) >= Steps(w)
    ensures exists i :: 0 <= i <= |trace| && Run(w, trace[..i]).lock.Free?
    decreases trace
  {
    hide Inv, Next;
    VisitProgress(w, Receive(0));
    assert trace != [];
    var next := Next(w, trace[0]);
    VisitProgress(w, trace[0]);
    StepKeepsInv(w, trace[0]);
    assert trace[..1][1..] == [];
    assert Run(w, trace[..1]) == next;
    if !next.lock.Free? {
      BroadcastEnds(next, trace[1..]);
      var i :| 0 <= i <= |trace| - 1 && Run(next, trace[1..][..i]).lock.Free?;
      assert trace[..i + 1][1..] == trace[1..][..i];
      assert Run(w, trace[..i + 1]).lock.Free?;
    }
  }

  lemma {:induction false} RunSnoc(w: Watch, trace: seq<Action>, a: Action)
    ensures Run(w, trace + [a]) == Next(Run(w, trace), a)
    decreases trace
  {
    hide Next;
    if trace == [] {
      assert [a][1..] == [] && [] + [a] == [a];
    } else {
      assert (trace + [a])[0] == trace[0] && (trace + [a])[1..] == trace[1..] + [a];
      RunSnoc(Next(w, trace[0]), trace[1..], a);
    }
  }

  /** Without the order the law fails: of two overlapping transitions the older may broadcast last,
      and then the subscriber is left with Starting while the server has started. */
  lemma OverlapLosesState() returns (trace: seq<Action>)
    ensures var w := Run(Init(), trace);
            w.state == Started && Settled(w) && |w.subs| == 1 && w.subs[0].Latest() == Some(Starting)
  {
    hide Next;
    trace := [];
    for i := 0 to 13
      invariant Run(Init(), trace) == Overlapping(i)
    {
      RunSnoc(Init(), trace, OverlapAction(i));
      if i < 6 {
        OverlapEarly(i);
      } else {
        OverlapLate(i);
      }
      trace := trace + [OverlapAction(i)];
    }
  }

  /** The states of that run. */
  function Overlapping(i: nat): Watch {
    var told := Chan(None, [Stopped]);
    var twice := Chan(None, [Stopped, Started]);
    match i
    case 0 => Init()
    case 1 => Watch(Stopped, [Chan(None, [])], [], Subscribing(None), None, 0)
    case 2 => Watch(Stopped, [Chan(None, [])], [], Subscribing(Some(Stopped)), None, 0)
    case 3 => Watch(Stopped, [Chan(Some(Stopped), [])], [], Free, None, 0)
    case 4 => Watch(Stopped, [told], [], Free, None, 0)
    case 5 => Watch(Starting, [told], [Starting], Free, None, 0)
    case 6 => Watch(Started, [told], [Starting, Started], Free, None, 0)
    case 7 => Watch(Started, [told], [Starting], Broadcasting(Started, 0, TrySend), Some(Started), 1)
    case 8 => Watch(Started, [told.(slot := Some(Started))], [Starting], Broadcasting(Started, 1, TrySend), Some(Started), 1)
    case 9 => Watch(Started, [told.(slot := Some(Started))], [Starting], Free, Some(Started), 1)
    case 10 => Watch(Started, [twice], [Starting], Free, Some(Started), 1)
    case 11 => Watch(Started, [twice], [], Broadcasting(Starting, 0, TrySend), Some(Starting), 1)
    case 12 => Watch(Started, [twice.(slot := Some(Starting))], [], Broadcasting(Starting, 1, TrySend), Some(Starting), 1)
    case _ => Watch(Started, [twice.(slot := Some(Starting))], [], Free, Some(Starting), 1)
  }

  function OverlapAction(i: nat): Action
    requires i < 13
  {
    [Register, ReadState, SendFirst, Receive(0), Set(Starting), Set(Started),
     TakeLock(1), Visit, Visit, Receive(0), TakeLock(0), Visit, Visit][i]
  }

  lemma OverlapEarly(i: nat)
    requires i < 6
    ensures Next(Overlapping(i), OverlapAction(i)) == Overlapping(i + 1)
  {
    assert [] + [Stopped] == [Stopped];
    assert Next(Overlapping(i), OverlapAction(i)).subs == Overlapping(i + 1).subs;
    assert Next(Overlapping(i), OverlapAction(i)).flights == Overlapping(i + 1).flights;
  }

  lemma OverlapLate(i: nat)
    requires 6 <= i < 13
    ensures Next(Overlapping(i), OverlapAction(i)) == Overlapping(i + 1)
  {
    assert [Stopped] + [Started] == [Stopped, Started];
    assert Next(Overlapping(i), OverlapAction(i)).subs == Overlapping(i + 1).subs;
    assert Next(Overlapping(i), OverlapAction(i)).flights == Overlapping(i + 1).flights;
  }

  // ---- the waiter ----

  /** What a held client gets from the states delivered so far; none while still waiting. */
  function Verdict(seen: seq<State>): Option<bool> {
    if seen == [] then None
    else if seen[0] == Starting then Verdict(seen[1..])
    else Some(seen[0] == Started)
  }

  lemma {:induction false} WaitingSawOnlyStarting(seen: seq<State>)
    requires Verdict(seen).None?
    ensures forall i :: 0 <= i < |seen| ==> seen[i] == Starting
    decreases seen
  {
    if seen != [] {
      WaitingSawOnlyStarting(seen[1..]);
    }
  }

  lemma {:induction false} VerdictSnoc(seen: seq<State>, s: State)
    requires Verdict(seen).None?
    ensures Verdict(seen + [s]) == if s == Starting then None else Some(s == Started)
    decreases seen
  {
    if seen == [] {
      assert [s][1..] == [];
    } else {
      assert (seen + [s])[1..] == seen[1..] + [s];
      VerdictSnoc(seen[1..], s);
    }
  }

  /** A held client is not forgotten: once the server has settled in Started, a waiter without a
      verdict has Started waiting in its channel and proceeds on its next receive. */
  lemma HeldClientIsReleased(trace: seq<Action>, k: nat)
    requires InOrder(trace)
    ensures var w := Run(Init(), trace);
            Settled(w) && w.state == Started && k < |w.subs| && Verdict(w.subs[k].seen).None? ==>
              w.subs[k].slot == Some(Started) && Verdict(Next(w, Receive(k)).subs[k].seen) == Some(true)
  {
    NoLostState(trace, k);
    var w := Run(Init(), trace);
    if Settled(w) && w.state == Started && k < |w.subs| && Verdict(w.subs[k].seen).None? {
      WaitingSawOnlyStarting(w.subs[k].seen);
      VerdictSnoc(w.subs[k].seen, Started);
    }
  }

  /** The waiter loop of holdClient and waitForServer, over the states that its channel delivers before
      the timeout, or before it is closed: the client is let through exactly on a positive verdict. */
  method WaitForServer(delivered: seq<State>) returns (ready: bool)
    ensures ready <==> Verdict(delivered) == Some(true)
  {
    for i := 0 to |delivered|
      invariant Verdict(delivered[i..]) == Verdict(delivered)
    {
      assert delivered[i..][0] == delivered[i] && delivered[i..][1..] == delivered[i + 1..];
      match delivered[i] {
        case Starting => continue;
        case Started => return true;
        case Stopping => return false;
        case Stopped => return false;
      }
    }
    return false;
  }

  /** broadcastState with nobody receiving meanwhile: every subscriber ends up with the new state. */
  class StateBroadcaster {
    var state: State
    var subs: seq<Chan>

    constructor ()
      ensures state == Stopped && subs == []
    {
      state, subs := Stopped, [];
    }

    method Subscribe() returns (k: nat)
      modifies this
      ensures state == old(state) && k == |old(subs)| && subs == old(subs) + [Chan(Some(state), [])]
    {
      k := |subs|;
      subs := subs + [Chan(None, [])];
      subs := subs[k := subs[k].(slot := Some(state))];
    }

    method Broadcast(v: State)
      modifies this`subs
      ensures |subs| == |old(subs)|
      ensures forall k :: 0 <= k < |subs| ==> subs[k] == old(subs)[k].(slot := Some(v))
    {
      for i := 0 to |subs|
        invariant |subs| == |old(subs)|
        invariant forall k :: 0 <= k < i ==> subs[k] == old(subs)[k].(slot := Some(v))
        invariant forall k :: i <= k < |subs| ==> subs[k] == old(subs)[k]
      {
        var c := subs[i];
        if c.slot.None? {
          c := c.(slot := Some(v));
        } else {
          c := c.(slot := None);
          c := c.(slot := Some(v));
        }
        subs := subs[i := c];
      }
    }
  }
}
