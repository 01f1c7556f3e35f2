/** The pool object itself: its variables are assigned in place by the code between two awaits.
    Every such stretch does the step of the state machine and keeps what the pool promises. */
module TaskProcessPool {
  import opened Wrappers
  import opened TaskPool

  class Pool {
    // createTaskProcessPool's own variables
    var slots: seq<Option<Pid>>
    var owned: set<Pid>
    var preparing: map<nat, Preparation>
    var closed: bool
    // reservations are closures with their own variables; processes live outside
    var reservations: map<nat, Reservation>
    var processes: map<Pid, Process>
    var serving: bool
    var failed: set<nat>
    var watched: set<Pid>
    var runs: seq<Pid>
    var tasks: map<Pid, Language>
    var closing: Closing
    var next: nat
    // who holds each ordinal, and what close may leave behind
    ghost var holders: seq<Holder>
    ghost var strays: set<Pid>

    function Contents(): State
      reads this
    {
      State(slots, owned, preparing, closed, serving, failed, reservations, processes, watched, runs, tasks, closing, next)
    }

    ghost predicate Valid()
      reads this
    {
      Kept(Contents(), holders, strays)
    }

    constructor (concurrency: nat)
      ensures Valid() && Safe(Contents()) && Contents() == Initial(concurrency)
      ensures PreparedOrdinals(Contents()) == Ordinals(concurrency)
      ensures forall i: nat :: i < concurrency ==> OnlyLives(processes, i, i)
    {
      slots, owned, closed := seq(concurrency, _ => None), {}, false;
      preparing := map i: nat | i < concurrency :: Preparation(i, true, Starting(i));
      processes := map i: nat | i < concurrency :: Process(i, true, JavaScript);
      reservations, serving, failed, watched, runs, tasks := map[], false, {}, {}, [], map[];
      closing, next := NotClosing, concurrency;
      holders, strays := seq(concurrency, i requires 0 <= i < concurrency => AtPreparation(i)), {};
      new;
      InitialIsSafe(concurrency);
    }

    /** The step that has been taken keeps the promises. */
    ghost method Advance(s: State, e: Event)
      requires Kept(s, holders, strays) && Enabled(s, e) && Contents() == Next(s, e)
      modifies this`holders, this`strays
      ensures Valid() && Safe(Contents())
      ensures strays == if e.Close? then Strays(s) else old(strays)
    {
      hide Kept, Safe, Enabled, Next;
      holders, strays := StepKept(s, holders, strays, e);
    }

    /** startTaskSlot up to its first await. */
    method SpawnProcess(ordinal: nat, language: Language) returns (pid: Pid)
      modifies this`processes, this`next
      ensures pid == old(next) && next == pid + 1
      ensures processes == Spawn(old(Contents()), ordinal, language)
    {
      pid := next;
      processes := processes[pid := Process(ordinal, true, language)];
      next := next + 1;
    }

    method ReplenishOrdinal(index: nat)
      modifies this`processes, this`next, this`preparing
      ensures next == old(next) + 1
      ensures processes == Spawn(old(Contents()), index, JavaScript)
      ensures preparing == Replenish(old(Contents()), index)
    {
      var pid := SpawnProcess(index, JavaScript);
      preparing := preparing[pid := Preparation(index, false, Starting(pid))];
    }

    /** All first preparations have settled without an error. */
    method Open()
      requires Valid() && Enabled(Contents(), PoolOpened)
      modifies this
      ensures Valid() && Safe(Contents()) && Contents() == Next(old(Contents()), PoolOpened)
      ensures |IdleOrdinals(Contents())| + |preparing| + |reservations| == |slots|
    {
      hide Inv, Kept, Safe, NoneLives, OnlyLives, AtMostLives, IdleOrdinals, PreparedOrdinals;
      ghost var s := Contents();
      serving := true;
      assert Contents() == Next(s, PoolOpened);
      Advance(s, PoolOpened);
      SafeCounts(Contents());
    }

    /** prepare goes on after startTaskSlot has resolved. */
    method StartSucceeded(task: nat)
      requires Valid() && Enabled(Contents(), Event.StartSucceeded(task))
      modifies this
      ensures Valid() && Safe(Contents()) && Contents() == Next(old(Contents()), Event.StartSucceeded(task))
      ensures var i := old(preparing)[task].index;
              AtMostLives(processes, i, old(preparing)[task].at.pid)
              && (!closed ==> i in IdleOrdinals(Contents()) && i !in PreparedOrdinals(Contents()))
    {
      hide Inv, Kept, Safe, NoneLives, OnlyLives, AtMostLives, IdleOrdinals, PreparedOrdinals;
      ghost var s := Contents();
      var a := preparing[task];
      if closed {
        preparing := preparing[task := a.(at := Stopping(a.at.pid))];
      } else {
        owned := owned + {a.at.pid};
        slots := slots[a.index := Some(a.at.pid)];
        watched := watched + {a.at.pid};
        preparing := preparing - {task};
      }
      assert Contents() == Next(s, Event.StartSucceeded(task));
      KeptIsInv(s, holders, strays);
      AfterStartSucceeded(s, holders, task);
      Advance(s, Event.StartSucceeded(task));
    }

    /** prepare's catch clause. */
    method StartFailed(task: nat)
      requires Valid() && Enabled(Contents(), Event.StartFailed(task))
      modifies this
      ensures Valid() && Safe(Contents()) && Contents() == Next(old(Contents()), Event.StartFailed(task))
      ensures NoneLives(processes, old(preparing)[task].index)
      ensures !closed && !old(preparing)[task].initial ==> old(preparing)[task].index in PreparedOrdinals(Contents())
    {
      hide Inv, Kept, Safe, NoneLives, OnlyLives, AtMostLives, IdleOrdinals, PreparedOrdinals;
      ghost var s := Contents();
      var a := preparing[task];
      if closed {
        preparing := preparing - {task};
      } else if a.initial {
        failed := failed + {a.index};
        preparing := preparing - {task};
      } else {
        preparing := preparing[task := a.(at := Delaying)];
      }
      assert Contents() == Next(s, Event.StartFailed(task));
      KeptIsInv(s, holders, strays);
      AfterStartFailed(s, holders, task);
      Advance(s, Event.StartFailed(task));
    }

    /** prepare's loop condition after the delay. */
    method DelayEnded(task: nat)
      requires Valid() && Enabled(Contents(), Event.DelayEnded(task))
      modifies this
      ensures Valid() && Safe(Contents()) && Contents() == Next(old(Contents()), Event.DelayEnded(task))
      ensures var i := old(preparing)[task].index;
              if closed then NoneLives(processes, i)
              else old(next) !in old(processes) && OnlyLives(processes, i, old(next))
    {
      hide Inv, Kept, Safe, NoneLives, OnlyLives, AtMostLives, IdleOrdinals, PreparedOrdinals;
      ghost var s := Contents();
      var a := preparing[task];
      if closed {
        preparing := preparing - {task};
      } else {
        var pid := SpawnProcess(a.index, JavaScript);
        preparing := preparing[task := a.(at := Starting(pid))];
      }
      assert Contents() == Next(s, Event.DelayEnded(task));
      KeptIsInv(s, holders, strays);
      AfterDelayEnded(s, holders, task);
      Advance(s, Event.DelayEnded(task));
    }

    /** prepare returns after it stopped a process that started too late. */
    method StopEnded(task: nat)
      requires Valid() && Enabled(Contents(), Event.StopEnded(task))
      modifies this
      ensures Valid() && Safe(Contents()) && Contents() == Next(old(Contents()), Event.StopEnded(task))
      ensures NoneLives(processes, old(preparing)[task].index)
    {
      hide Inv, Kept, Safe, NoneLives, OnlyLives, AtMostLives, IdleOrdinals, PreparedOrdinals;
      ghost var s := Contents();
      preparing := preparing - {task};
      assert Contents() == Next(s, Event.StopEnded(task));
      KeptIsInv(s, holders, strays);
      AfterStopEnded(s, holders, task);
      Advance(s, Event.StopEnded(task));
    }

    /** A process ends, for whatever reason. */
    method Died(p: Pid)
      requires Valid() && Enabled(Contents(), Event.Died(p))
      modifies this
      ensures Valid() && Safe(Contents()) && Contents() == Next(old(Contents()), Event.Died(p))
      ensures NoneLives(processes, old(processes)[p].ordinal)
    {
      hide Inv, Kept, Safe, NoneLives, OnlyLives, AtMostLives, IdleOrdinals, PreparedOrdinals;
      ghost var s := Contents();
      processes := processes[p := processes[p].(alive := false)];
      assert Contents() == Next(s, Event.Died(p));
      KeptIsInv(s, holders, strays);
      AfterDied(s, holders, p);
      Advance(s, Event.Died(p));
    }

    /** The handler on slot.exited. */
    method ExitSeen(p: Pid)
      requires Valid() && Enabled(Contents(), Event.ExitSeen(p))
      modifies this
      ensures Valid() && Safe(Contents()) && Contents() == Next(old(Contents()), Event.ExitSeen(p))
      ensures var i := old(processes)[p].ordinal;
              old(slots)[i] == Some(p) && !closed ==>
                i in PreparedOrdinals(Contents()) && old(next) !in old(processes) && OnlyLives(processes, i, old(next))
      ensures old(slots)[old(processes)[p].ordinal] != Some(p) ==> slots == old(slots) && processes == old(processes)
      ensures p !in watched
    {
      hide Enabled, Next, Inv, Kept, Safe, NoneLives, OnlyLives, AtMostLives, IdleOrdinals, PreparedOrdinals;
      ghost var s := Contents();
      ExitSeenStep(s, p);
      var index := processes[p].ordinal;
      watched := watched - {p};
      if !closed && slots[index] == Some(p) {
        slots := slots[index := None];
        owned := owned - {p};
        ReplenishOrdinal(index);
      }
      assert Contents() == Next(s, Event.ExitSeen(p));
      KeptIsInv(s, holders, strays);
      AfterExitSeen(s, holders, p);
      Advance(s, Event.ExitSeen(p));
    }

    method Reserve() returns (reservation: Option<nat>)
      requires Valid() && Enabled(Contents(), Event.Reserve)
      modifies this
      ensures Valid() && Safe(Contents()) && Contents() == Next(old(Contents()), Event.Reserve)
      ensures reservation.Some? <==> !closed && exists i :: 0 <= i < |old(slots)| && old(slots)[i].Some?
      ensures reservation.Some? ==>
                reservation.value == old(next) && reservation.value in reservations && reservations[reservation.value].stage.Held?
                && var i := reservations[reservation.value].index;
                   i < |old(slots)| && old(slots)[i] == Some(reservations[reservation.value].current)
                   && forall j :: 0 <= j < i ==> old(slots)[j].None?
    {
      hide Inv, Kept, Safe, NoneLives, OnlyLives, AtMostLives, IdleOrdinals, PreparedOrdinals;
      ghost var s := Contents();
      if closed {
        reservation := None;
      } else {
        var index := 0;
        while index < |slots| && slots[index].None?
          invariant 0 <= index <= |slots|
          invariant forall i :: 0 <= i < index ==> slots[i].None?
          invariant FirstIdle(slots, 0) == FirstIdle(slots, index)
        {
          index := index + 1;
        }
        if index == |slots| {
          reservation := None;
        } else {
          reservations := reservations[next := Reservation(index, slots[index].value, false, false, Held, JavaScript)];
          slots := slots[index := None];
          reservation := Some(next);
          next := next + 1;
        }
      }
      assert Contents() == Next(s, Event.Reserve);
      Advance(s, Event.Reserve);
    }

    /** run up to its first await; a refused call throws. It may overlap an earlier call. */
    method Run(r: nat, python: bool) returns (accepted: bool)
      requires Valid() && Enabled(Contents(), Event.Run(r, python))
      modifies this
      ensures Valid() && Safe(Contents()) && Contents() == Next(old(Contents()), Event.Run(r, python))
      ensures accepted <==> !old(reservations)[r].used && !old(reservations)[r].released && !closed
      ensures accepted ==> old(reservations)[r].stage.Held? && r in reservations && reservations[r].used
      ensures r in reservations && reservations[r].current == old(reservations)[r].current
      ensures !accepted ==> Contents() == old(Contents())
      ensures processes == old(processes) && owned == old(owned)
      ensures accepted && !python ==> runs == old(runs) + [old(reservations)[r].current]
      ensures accepted && python ==> runs == old(runs)
    {
      hide Enabled, Next, Inv, Kept, Safe, NoneLives, OnlyLives, AtMostLives, IdleOrdinals, PreparedOrdinals;
      ghost var s := Contents();
      RunStep(s, r, python);
      var v := reservations[r];
      accepted := !(v.used || v.released || closed);
      if accepted {
        v := v.(used := true);
        if python {
          v := v.(stage := Swapping, task := Python);
        } else {
          v := v.(stage := Running, task := JavaScript);
          runs := runs + [v.current];
          tasks := tasks[v.current := JavaScript];
        }
        reservations := reservations[r := v];
      }
      assert Contents() == Next(s, Event.Run(r, python));
      KeptIsInv(s, holders, strays);
      OfReservation(s, holders, r);
      Advance(s, Event.Run(r, python));
    }

    /** run goes on after the JavaScript process has stopped. */
    method SwapStopped(r: nat, canceled: bool)
      requires Valid() && Enabled(Contents(), Event.SwapStopped(r, canceled))
      modifies this
      ensures Valid() && Safe(Contents()) && Contents() == Next(old(Contents()), Event.SwapStopped(r, canceled))
      ensures var i := old(reservations)[r].index;
              if closed || canceled then NoneLives(processes, i)
              else old(next) !in old(processes) && OnlyLives(processes, i, old(next))
    {
      hide Enabled, Next, Inv, Kept, Safe, NoneLives, OnlyLives, AtMostLives, IdleOrdinals, PreparedOrdinals;
      ghost var s := Contents();
      SwapStoppedStep(s, r, canceled);
      var v := reservations[r];
      owned := owned - {v.current};
      if closed || canceled {
        reservations := reservations[r := v.(stage := Ended)];
      } else {
        var pid := SpawnProcess(v.index, Python);
        reservations := reservations[r := v.(stage := Restarting(pid))];
      }
      assert Contents() == Next(s, Event.SwapStopped(r, canceled));
      KeptIsInv(s, holders, strays);
      AfterSwapStopped(s, holders, r, canceled);
      Advance(s, Event.SwapStopped(r, canceled));
    }

    /** run goes on with the Python process in place of the old one. */
    method RestartSucceeded(r: nat)
      requires Valid() && Enabled(Contents(), Event.RestartSucceeded(r))
      modifies this
      ensures Valid() && Safe(Contents()) && Contents() == Next(old(Contents()), Event.RestartSucceeded(r))
      ensures var p := old(reservations)[r].stage.pid;
              p !in old(runs) && runs == old(runs) + [p] && AtMostLives(processes, old(reservations)[r].index, p)
    {
      hide Inv, Kept, Safe, NoneLives, OnlyLives, AtMostLives, IdleOrdinals, PreparedOrdinals;
      ghost var s := Contents();
      var v := reservations[r];
      v := v.(current := v.stage.pid, stage := Running);
      owned := owned + {v.current};
      runs := runs + [v.current];
      tasks := tasks[v.current := v.task];
      reservations := reservations[r := v];
      assert Contents() == Next(s, Event.RestartSucceeded(r));
      KeptIsInv(s, holders, strays);
      AfterRestartSucceeded(s, holders, r);
      Advance(s, Event.RestartSucceeded(r));
    }

    /** run throws after the Python process failed to start. */
    method RestartFailed(r: nat)
      requires Valid() && Enabled(Contents(), Event.RestartFailed(r))
      modifies this
      ensures Valid() && Safe(Contents()) && Contents() == Next(old(Contents()), Event.RestartFailed(r))
      ensures NoneLives(processes, old(reservations)[r].index)
    {
      hide Inv, Kept, Safe, NoneLives, OnlyLives, AtMostLives, IdleOrdinals, PreparedOrdinals;
      ghost var s := Contents();
      reservations := reservations[r := reservations[r].(stage := Ended)];
      assert Contents() == Next(s, Event.RestartFailed(r));
      KeptIsInv(s, holders, strays);
      AfterRunSettled(s, holders, r, Event.RestartFailed(r));
      Advance(s, Event.RestartFailed(r));
    }

    /** run settles; it has stopped its process. */
    method RunEnded(r: nat)
      requires Valid() && Enabled(Contents(), Event.RunEnded(r))
      modifies this
      ensures Valid() && Safe(Contents()) && Contents() == Next(old(Contents()), Event.RunEnded(r))
      ensures NoneLives(processes, old(reservations)[r].index)
    {
      hide Inv, Kept, Safe, NoneLives, OnlyLives, AtMostLives, IdleOrdinals, PreparedOrdinals;
      ghost var s := Contents();
      reservations := reservations[r := reservations[r].(stage := Ended)];
      assert Contents() == Next(s, Event.RunEnded(r));
      KeptIsInv(s, holders, strays);
      AfterRunSettled(s, holders, r, Event.RunEnded(r));
      Advance(s, Event.RunEnded(r));
    }

    method Release(r: nat)
      requires Valid() && Enabled(Contents(), Event.Release(r))
      modifies this
      ensures Valid() && Safe(Contents()) && Contents() == Next(old(Contents()), Event.Release(r))
      ensures old(reservations)[r].released ==> Contents() == old(Contents())
      ensures forall python :: Next(Contents(), Event.Run(r, python)) == Contents()
    {
      hide Inv, Kept, Safe, NoneLives, OnlyLives, AtMostLives, IdleOrdinals, PreparedOrdinals;
      ghost var s := Contents();
      var v := reservations[r];
      if !v.released {
        reservations := reservations[r := v.(released := true, stage := Releasing)];
      }
      assert Contents() == Next(s, Event.Release(r));
      Advance(s, Event.Release(r));
    }

    /** release goes on after the process has stopped. */
    method ReleaseStopped(r: nat)
      requires Valid() && Enabled(Contents(), Event.ReleaseStopped(r))
      modifies this
      ensures Valid() && Safe(Contents()) && Contents() == Next(old(Contents()), Event.ReleaseStopped(r))
      ensures var i := old(reservations)[r].index;
              if closed then NoneLives(processes, i)
              else i in PreparedOrdinals(Contents()) && old(next) !in old(processes) && OnlyLives(processes, i, old(next))
    {
      hide Enabled, Next, Inv, Kept, Safe, NoneLives, OnlyLives, AtMostLives, IdleOrdinals, PreparedOrdinals;
      ghost var s := Contents();
      ReleaseStoppedStep(s, r);
      var v := reservations[r];
      owned := owned - {v.current};
      reservations := reservations - {r};
      if !closed {
        ReplenishOrdinal(v.index);
      }
      assert Contents() == Next(s, Event.ReleaseStopped(r));
      KeptIsInv(s, holders, strays);
      AfterReleaseStopped(s, holders, r);
      Advance(s, Event.ReleaseStopped(r));
    }

    method Close()
      requires Valid() && Enabled(Contents(), Event.Close)
      modifies this
      ensures Valid() && Safe(Contents()) && Contents() == Next(old(Contents()), Event.Close)
      ensures strays == Strays(old(Contents()))
      ensures forall p :: Alive(Contents(), p) ==>
                p in old(owned) || p in strays || processes[p].ordinal in PreparedOrdinals(Contents())
    {
      hide Inv, Kept, Safe, NoneLives, OnlyLives, AtMostLives, IdleOrdinals, PreparedOrdinals;
      ghost var s := Contents();
      closed := true;
      closing := AwaitOwned(owned);
      assert Contents() == Next(s, Event.Close);
      Advance(s, Event.Close);
      KeptWhileClosing(Contents(), holders, strays);
    }

    /** close has seen everything it owned stop. */
    method OwnedStopped()
      requires Valid() && Enabled(Contents(), Event.OwnedStopped)
      modifies this
      ensures Valid() && Safe(Contents()) && Contents() == Next(old(Contents()), Event.OwnedStopped)
      ensures strays == old(strays)
      ensures forall p :: Alive(Contents(), p) ==> p in strays || processes[p].ordinal in PreparedOrdinals(Contents())
    {
      hide Inv, Kept, Safe, NoneLives, OnlyLives, AtMostLives, IdleOrdinals, PreparedOrdinals;
      ghost var s := Contents();
      closing := AwaitPreparing(preparing.Keys);
      assert Contents() == Next(s, Event.OwnedStopped);
      Advance(s, Event.OwnedStopped);
      KeptWhileClosing(Contents(), holders, strays);
    }

    /** close returns. */
    method PreparingSettled()
      requires Valid() && Enabled(Contents(), Event.PreparingSettled)
      modifies this
      ensures Valid() && Safe(Contents()) && Contents() == Next(old(Contents()), Event.PreparingSettled)
      ensures strays == old(strays) && forall p :: Alive(Contents(), p) ==> p in strays
    {
      hide Inv, Kept, Safe, NoneLives, OnlyLives, AtMostLives, IdleOrdinals, PreparedOrdinals;
      ghost var s := Contents();
      owned := {};
      closing := Finished;
      assert Contents() == Next(s, Event.PreparingSettled);
      Advance(s, Event.PreparingSettled);
      KeptWhileClosing(Contents(), holders, strays);
    }
  }

  lemma ExitSeenStep(s: State, p: Pid)
    requires Enabled(s, Event.ExitSeen(p))
    ensures p in s.processes && s.processes[p].ordinal < |s.slots| && Next(s, Event.ExitSeen(p)) == ExitSeenNext(s, p)
  {
  }

  lemma RunStep(s: State, r: nat, python: bool)
    requires Enabled(s, Event.Run(r, python))
    ensures r in s.reservations && Next(s, Event.Run(r, python)) == RunNext(s, r, python)
  {
  }

  lemma SwapStoppedStep(s: State, r: nat, canceled: bool)
    requires Enabled(s, Event.SwapStopped(r, canceled))
    ensures r in s.reservations && Next(s, Event.SwapStopped(r, canceled)) == SwapStoppedNext(s, r, canceled)
  {
  }

  lemma ReleaseStoppedStep(s: State, r: nat)
    requires Enabled(s, Event.ReleaseStopped(r))
    ensures r in s.reservations && Next(s, Event.ReleaseStopped(r)) == ReleaseStoppedNext(s, r)
  {
  }

  lemma KeptIsInv(s: State, holders: seq<Holder>, strays: set<Pid>)
    requires Kept(s, holders, strays)
    ensures Inv(s, holders)
  {
  }

  lemma SafeCounts(s: State)
    requires Safe(s)
    ensures s.serving && !s.closed ==> |IdleOrdinals(s)| + |s.preparing| + |s.reservations| == |s.slots|
  {
  }

  lemma KeptWhileClosing(s: State, holders: seq<Holder>, strays: set<Pid>)
    requires Kept(s, holders, strays)
    ensures s.closing.AwaitOwned? ==>
              forall p :: Alive(s, p) ==> p in s.closing.owned || p in strays || s.processes[p].ordinal in PreparedOrdinals(s)
    ensures s.closing.AwaitPreparing? ==>
              forall p :: Alive(s, p) ==> p in strays || s.processes[p].ordinal in PreparedOrdinals(s)
    ensures s.closing.Finished? ==> forall p :: Alive(s, p) ==> p in strays
  {
    hide Inv, PreparedOrdinals;
    AwaitedIsPrepared(s, holders);
  }

  lemma AwaitedIsPrepared(s: State, holders: seq<Holder>)
    requires Inv(s, holders)
    ensures forall p :: AwaitedTask(s, holders, p) ==> s.processes[p].ordinal in PreparedOrdinals(s)
  {
    hide Inv;
    AtOrdinal(s, holders, 0);
    forall p | AwaitedTask(s, holders, p)
      ensures s.processes[p].ordinal in PreparedOrdinals(s)
    {
      AtOrdinal(s, holders, s.processes[p].ordinal);
    }
  }
}
