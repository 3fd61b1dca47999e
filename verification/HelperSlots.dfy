/** server.go: one controller helper at a time, under two locks that are never held together.

    Every critical section is a step of its own: reserving the slot, storing the PID, releasing the
    slot and clearing the PID interleave freely. Besides each helper's own finish there may be
    repeated and stale finish calls, for generations whose helper has let go of its slot, for zero
    and for generations that were never issued. */
module HelperSlots {

  /** What helperMu and pidMu guard. */
  datatype Slots = Slots(generation: nat, active: bool, pid: nat, pidGeneration: nat)

  /** Launched; PID stored; slot released and PID half pending; done. */
  datatype Phase = Launched | Stored(pid: nat) | Clearing | Finished

  /** `helpers[g - 1]` is how far the goroutine of generation `g` has come, `stray` the second halves that
      repeated finish calls still have to run. */
  datatype World = World(slots: Slots, helpers: seq<Phase>, stray: multiset<nat>)

  datatype Action =
    | Begin
    | StorePid(generation: nat, pid: nat)
    | ReleaseSlot(generation: nat)
    | ClearPid(generation: nat)
    | RepeatRelease(generation: nat)
    | RepeatClear(generation: nat)

  function Init(): World {
    World(Slots(0, false, 0, 0), [], multiset{})
  }

  function Begun(s: Slots): (Slots, bool) {
    if s.active then (s, false) else (s.(generation := s.generation + 1, active := true), true)
  }

  function Stores(s: Slots, generation: nat, pid: nat): Slots {
    s.(pid := pid, pidGeneration := generation)
  }

  /** First half of finishControllerHelper; the second runs only if the generation matched. */
  function Released(s: Slots, generation: nat): (Slots, bool) {
    if generation == 0 || generation != s.generation then (s, false) else (s.(active := false), true)
  }

  function Cleared(s: Slots, generation: nat): Slots {
    if s.pidGeneration == generation then s.(pid := 0, pidGeneration := 0) else s
  }

  predicate In(w: World, g: nat, phase: Phase) {
    1 <= g <= |w.helpers| && w.helpers[g - 1] == phase
  }

  predicate IsStored(w: World, g: nat) {
    1 <= g <= |w.helpers| && w.helpers[g - 1].Stored?
  }

  /** The helper has been launched and has not let go of its slot. */
  predicate Holds(w: World, g: nat) {
    In(w, g, Launched) || IsStored(w, g)
  }

  predicate LetGo(w: World, g: nat) {
    In(w, g, Clearing) || In(w, g, Finished)
  }

  predicate MayOwnPid(w: World, g: nat) {
    IsStored(w, g) || In(w, g, Clearing)
  }

  /** One step of some goroutine; an action that no goroutine is ready for does nothing. */
  function Next(w: World, a: Action): World {
    match a
    case Begin =>
      var (s, launch) := Begun(w.slots);
      if launch then w.(slots := s, helpers := w.helpers + [Launched]) else w
    case StorePid(g, pid) =>
      if In(w, g, Launched) && pid > 0
      then w.(slots := Stores(w.slots, g, pid), helpers := w.helpers[g - 1 := Stored(pid)]) else w
    case ReleaseSlot(g) =>
      if Holds(w, g) then
        var (s, matched) := Released(w.slots, g);
        w.(slots := s, helpers := w.helpers[g - 1 := if matched then Clearing else Finished])
      else w
    case ClearPid(g) =>
      if In(w, g, Clearing)
      then w.(slots := Cleared(w.slots, g), helpers := w.helpers[g - 1 := Finished]) else w
    case RepeatRelease(g) =>
      if !Holds(w, g) then
        var (s, matched) := Released(w.slots, g);
        w.(slots := s, stray := if matched then w.stray + multiset{g} else w.stray)
      else w
    case RepeatClear(g) =>
      if g in w.stray
      then w.(slots := Cleared(w.slots, g), stray := w.stray - multiset{g}) else w
  }

  function Run(w: World, trace: seq<Action>): World
    decreases trace
  {
    if trace == [] then w else Run(Next(w, trace[0]), trace[1..])
  }

  /** The slot is taken exactly while the newest helper holds it. */
  ghost predicate SlotInv(w: World) {
    && w.slots.generation == |w.helpers|
    && (forall g :: Holds(w, g) ==> g == w.slots.generation && w.slots.active)
    && (w.slots.active ==> Holds(w, w.slots.generation))
  }

  /** A stored PID belongs to a helper that has still to clear it. */
  ghost predicate PidInv(w: World) {
    && (w.slots.pid == 0 <==> w.slots.pidGeneration == 0)
    && (w.slots.pid != 0 ==> MayOwnPid(w, w.slots.pidGeneration))
    && (forall g :: IsStored(w, g) ==> OwnsPid(w, g))
  }

  /** The PID in the slot is that of helper `g`, under its generation. */
  predicate OwnsPid(w: World, g: nat)
    requires IsStored(w, g)
  {
    w.slots.pid == w.helpers[g - 1].pid > 0 && w.slots.pidGeneration == g
  }

  ghost predicate StrayInv(w: World) {
    forall g :: g in w.stray ==> LetGo(w, g)
  }

  ghost predicate Inv(w: World) {
    SlotInv(w) && PidInv(w) && StrayInv(w)
  }

  /** Only a launch gives a helper the slot, and only its own release takes it away. */
  lemma HoldsAfter(w: World, a: Action, g: nat)
    requires w.slots.generation == |w.helpers|
    ensures Holds(Next(w, a), g) <==>
              || (Holds(w, g) && a != ReleaseSlot(g))
              || (a.Begin? && !w.slots.active && g == w.slots.generation + 1)
  {
  }

  lemma StepKeepsSlot(w: World, a: Action)
    requires Inv(w)
    ensures SlotInv(Next(w, a))
  {
    var t := Next(w, a);
    forall g: nat
      ensures Holds(t, g) <==>
                || (Holds(w, g) && a != ReleaseSlot(g))
                || (a.Begin? && !w.slots.active && g == w.slots.generation + 1)
    {
      HoldsAfter(w, a, g);
    }
    hide PidInv, StrayInv, Holds, In;
  }

  lemma StepKeepsPid(w: World, a: Action)
    requires Inv(w)
    ensures PidInv(Next(w, a))
  {
    assert a.StorePid? ==> (In(w, a.generation, Launched) ==> Holds(w, a.generation));
    assert a.ReleaseSlot? ==> (Holds(w, a.generation) ==> a.generation == w.slots.generation);
    var t := Next(w, a);
    forall g | IsStored(t, g)
      ensures OwnsPid(t, g)
    {
      if IsStored(w, g) {
        assert OwnsPid(w, g) && Holds(w, g);
      }
    }
  }

  lemma StepKeepsStray(w: World, a: Action)
    requires Inv(w)
    ensures StrayInv(Next(w, a))
  {
    hide PidInv;
    var t := Next(w, a);
    forall g | g in t.stray
      ensures LetGo(t, g)
    {
      assert g in w.stray || LetGo(w, g);
    }
  }

  lemma StepKeepsInv(w: World, a: Action)
    requires Inv(w)
    ensures Inv(Next(w, a))
  {
    StepKeepsSlot(w, a);
    StepKeepsPid(w, a);
    StepKeepsStray(w, a);
    hide SlotInv, PidInv, StrayInv, Next;
  }

  lemma {:induction false} RunKeepsInv(w: World, trace: seq<Action>)
    requires Inv(w)
    ensures Inv(Run(w, trace))
    decreases trace
  {
    if trace != [] {
      StepKeepsInv(w, trace[0]);
      RunKeepsInv(Next(w, trace[0]), trace[1..]);
    }
  }

  /** Helper single flight, over every interleaving: two unfinished helpers are the same one and it
      owns the current generation; once every helper has finished, no PID is left behind. */
  lemma SingleFlight(trace: seq<Action>, g: nat, h: nat)
    ensures var w := Run(Init(), trace);
            && (Holds(w, g) && Holds(w, h) ==> g == h == w.slots.generation)
            && ((forall k :: 0 <= k < |w.helpers| ==> w.helpers[k] == Finished) ==> w.slots.pid == 0 && !w.slots.active)
  {
    RunKeepsInv(Init(), trace);
  }

  /** Each helper goes from launched to stored to clearing to finished by its own actions alone, and
      each of these actions takes effect. */
  lemma PhasesAdvance(trace: seq<Action>, a: Action, g: nat)
    ensures var w := Run(Init(), trace);
            var t := Next(w, a);
            1 <= g <= |w.helpers| ==>
              && g <= |t.helpers|
              && t.helpers[g - 1] ==
                   if a.StorePid? && a.generation == g && a.pid > 0 && In(w, g, Launched) then Stored(a.pid)
                   else if a == ReleaseSlot(g) && Holds(w, g) then Clearing
                   else if a == ClearPid(g) && In(w, g, Clearing) then Finished
                   else w.helpers[g - 1]
  {
    RunKeepsInv(Init(), trace);
  }

  /** While a helper with a stored PID runs, that PID is the one on record, under its generation. */
  lemma RunningPidIsOnRecord(trace: seq<Action>, g: nat)
    ensures var w := Run(Init(), trace);
            IsStored(w, g) ==> w.slots.pid == w.helpers[g - 1].pid > 0 && w.slots.pidGeneration == g == w.slots.generation
  {
    RunKeepsInv(Init(), trace);
    var w := Run(Init(), trace);
    if IsStored(w, g) {
      assert OwnsPid(w, g) && Holds(w, g);
    }
  }

  /** A repeated or stale finish leaves the slot alone and clears a PID only of its own generation. */
  lemma RepeatedFinishIsHarmless(trace: seq<Action>, g: nat)
    ensures var w := Run(Init(), trace);
            && Next(w, RepeatRelease(g)).slots == w.slots
            && (Next(w, RepeatClear(g)).slots == w.slots || w.slots.pidGeneration == g)
            && Next(w, RepeatClear(g)).slots.active == w.slots.active
            && (Holds(w, w.slots.pidGeneration) ==> Next(w, RepeatClear(g)).slots == w.slots)
            && Next(w, RepeatClear(g)).stray == w.stray - multiset{g}
            && (g in w.stray && w.slots.pidGeneration == g ==>
                  Next(w, RepeatClear(g)).slots.pid == 0 && Next(w, RepeatClear(g)).slots.pidGeneration == 0)
  {
    RunKeepsInv(Init(), trace);
  }

  /** A PID, once stored, stays until its own helper lets go of it. */
  lemma PidOutlivesOthers(trace: seq<Action>, a: Action)
    ensures var w := Run(Init(), trace);
            var t := Next(w, a);
            w.slots.pid != 0 && t.slots.pid != w.slots.pid ==>
              || (a.ClearPid? && a.generation == w.slots.pidGeneration)
              || (a.RepeatClear? && a.generation == w.slots.pidGeneration && In(w, a.generation, Clearing))
              || (a.StorePid? && In(w, w.slots.pidGeneration, Clearing))
  {
    RunKeepsInv(Init(), trace);
    var w := Run(Init(), trace);
    assert a.StorePid? && In(w, a.generation, Launched) ==> Holds(w, a.generation);
    assert IsStored(w, w.slots.pidGeneration) ==> Holds(w, w.slots.pidGeneration);
  }

  /** The guarded fields; one method per critical section. */
  class ServerHelper {
    var helperGeneration: nat
    var helperActive: bool
    var pid: nat
    var pidGeneration: nat

    constructor ()
      ensures View() == Init().slots
    {
      helperGeneration, helperActive, pid, pidGeneration := 0, false, 0, 0;
    }

    function View(): Slots
      reads this
    {
      Slots(helperGeneration, helperActive, pid, pidGeneration)
    }

    method BeginControllerHelper() returns (generation: nat, launch: bool)
      modifies this`helperGeneration, this`helperActive
      ensures (View(), launch) == Begun(old(View())) && generation == helperGeneration
    {
      if helperActive {
        return helperGeneration, false;
      }
      helperGeneration := helperGeneration + 1;
      helperActive := true;
      return helperGeneration, true;
    }

    method RememberPid(generation: nat, child: nat)
      modifies this`pid, this`pidGeneration
      ensures View() == Stores(old(View()), generation, child)
    {
      pid := child;
      pidGeneration := generation;
    }

    method ReleaseHelperSlot(generation: nat) returns (matched: bool)
      modifies this`helperActive
      ensures (View(), matched) == Released(old(View()), generation)
    {
      if generation == 0 || generation != helperGeneration {
        return false;
      }
      helperActive := false;
      return true;
    }

    method ForgetPid(generation: nat)
      modifies this`pid, this`pidGeneration
      ensures View() == Cleared(old(View()), generation)
    {
      if pidGeneration == generation {
        pid := 0;
        pidGeneration := 0;
      }
    }

    method FinishControllerHelper(generation: nat)
      modifies this
      ensures View() == var (s, matched) := Released(old(View()), generation); if matched then Cleared(s, generation) else s
    {
      var matched := ReleaseHelperSlot(generation);
      if matched {
        ForgetPid(generation);
      }
    }
  }
}
