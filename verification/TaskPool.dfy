/** The pool of single-use task processes (apps/code-runner/src/process/pool.ts) as a state
    machine. One event is the code between two awaits; a process is alive from its spawn
    until its 'close' event, and anything may die at any time. */
module TaskPool {
  import opened Wrappers

  type Pid = nat

  datatype Language = JavaScript | Python

  /** A process is started for tasks of one language. */
  datatype Process = Process(ordinal: nat, alive: bool, language: Language)

  /** Where a call of prepare(index, { initial }) is waiting. */
  datatype Waiting = Starting(pid: Pid) | Delaying | Stopping(pid: Pid)

  datatype Preparation = Preparation(index: nat, initial: bool, at: Waiting)

  /** Where a reservation's run or release is waiting. */
  datatype Stage =
    | Held                  // reserved, not run
    | Swapping              // run: the JavaScript process is being stopped
    | Restarting(pid: Pid)  // run: a Python process is starting in its place
    | Running
    | Ended                 // run has settled
    | Releasing             // release: the process is being stopped

  /** `task` is the language of the task that run was called with. */
  datatype Reservation = Reservation(index: nat, current: Pid, used: bool, released: bool, stage: Stage, task: Language)

  /** close(): it waits for what it owned, then for the preparations it then finds. */
  datatype Closing = NotClosing | AwaitOwned(owned: set<Pid>) | AwaitPreparing(tasks: set<nat>) | Finished

  datatype State = State(
    slots: seq<Option<Pid>>,
    owned: set<Pid>,
    preparing: map<nat, Preparation>,
    closed: bool,
    // the world around the pool's own variables
    serving: bool,
    failed: set<nat>,
    reservations: map<nat, Reservation>,
    processes: map<Pid, Process>,
    watched: set<Pid>,
    // the processes that were given a task, in order, and the language of each one's task
    runs: seq<Pid>,
    tasks: map<Pid, Language>,
    closing: Closing,
    next: nat)

  datatype Event =
    | PoolOpened
    | StartSucceeded(task: nat)
    | StartFailed(task: nat)
    | DelayEnded(task: nat)
    | StopEnded(task: nat)
    | Died(pid: Pid)
    | ExitSeen(pid: Pid)
    | Reserve
    | Run(reservation: nat, python: bool)
    | SwapStopped(reservation: nat, canceled: bool)
    | RestartSucceeded(reservation: nat)
    | RestartFailed(reservation: nat)
    | RunEnded(reservation: nat)
    | Release(reservation: nat)
    | ReleaseStopped(reservation: nat)
    | Close
    | OwnedStopped
    | PreparingSettled

  // ----- What the code does -----

  type Processes = map<Pid, Process>

  predicate Lives(ps: Processes, p: Pid) { p in ps && ps[p].alive }

  predicate Alive(s: State, p: Pid) { Lives(s.processes, p) }

  /** The process table once a process of this ordinal has been spawned. */
  function Spawn(s: State, ordinal: nat, language: Language): map<Pid, Process> {
    s.processes[s.next := Process(ordinal, true, language)]
  }

  /** The task that replenish starts: prepare runs up to its first await. */
  function Replenish(s: State, index: nat): map<nat, Preparation> {
    s.preparing[s.next := Preparation(index, false, Starting(s.next))]
  }

  function Settled(s: State, task: nat): State { s.(preparing := s.preparing - {task}) }

  function StartSucceededNext(s: State, task: nat): State
    requires task in s.preparing && s.preparing[task].at.Starting? && s.preparing[task].index < |s.slots|
  {
    var a := s.preparing[task];
    if s.closed then s.(preparing := s.preparing[task := a.(at := Stopping(a.at.pid))])
    else s.(preparing := s.preparing - {task},
            owned := s.owned + {a.at.pid},
            slots := s.slots[a.index := Some(a.at.pid)],
            watched := s.watched + {a.at.pid})
  }

  function StartFailedNext(s: State, task: nat): State
    requires task in s.preparing
  {
    var a := s.preparing[task];
    if s.closed then Settled(s, task)
    else if a.initial then s.(preparing := s.preparing - {task}, failed := s.failed + {a.index})
    else s.(preparing := s.preparing[task := a.(at := Delaying)])
  }

  function DelayEndedNext(s: State, task: nat): State
    requires task in s.preparing
  {
    var a := s.preparing[task];
    if s.closed then Settled(s, task)
    else s.(processes := Spawn(s, a.index, JavaScript), next := s.next + 1, preparing := s.preparing[task := a.(at := Starting(s.next))])
  }

  function ExitSeenNext(s: State, p: Pid): State
    requires p in s.processes && s.processes[p].ordinal < |s.slots|
  {
    var index := s.processes[p].ordinal;
    if s.closed || s.slots[index] != Some(p) then s.(watched := s.watched - {p})
    else s.(watched := s.watched - {p},
            slots := s.slots[index := None],
            owned := s.owned - {p},
            processes := Spawn(s, index, JavaScript),
            preparing := Replenish(s, index),
            next := s.next + 1)
  }

  /** The first idle position from i on. */
  function FirstIdle(slots: seq<Option<Pid>>, i: nat): (idle: Option<nat>)
    requires i <= |slots|
    ensures idle.Some? ==> i <= idle.value < |slots| && slots[idle.value].Some?
    ensures forall j :: i <= j < (if idle.Some? then idle.value else |slots|) ==> slots[j].None?
    decreases |slots| - i
  {
    if i == |slots| then None else if slots[i].Some? then Some(i) else FirstIdle(slots, i + 1)
  }

  function Taken(s: State, index: nat): State
    requires index < |s.slots| && s.slots[index].Some?
  {
    s.(slots := s.slots[index := None],
       reservations := s.reservations[s.next := Reservation(index, s.slots[index].value, false, false, Held, JavaScript)],
       next := s.next + 1)
  }

  function ReserveNext(s: State): State {
    if s.closed then s
    else match FirstIdle(s.slots, 0)
         case None => s
         case Some(index) =>
           Taken(s, index)
  }

  function RunNext(s: State, r: nat, python: bool): State
    requires r in s.reservations
  {
    var v := s.reservations[r];
    if v.used || v.released || s.closed then s
    else if python then s.(reservations := s.reservations[r := v.(used := true, stage := Swapping, task := Python)])
    else s.(reservations := s.reservations[r := v.(used := true, stage := Running, task := JavaScript)],
            runs := s.runs + [v.current],
            tasks := s.tasks[v.current := JavaScript])
  }

  function SwapStoppedNext(s: State, r: nat, canceled: bool): State
    requires r in s.reservations
  {
    var v := s.reservations[r];
    if s.closed || canceled then
      s.(owned := s.owned - {v.current}, reservations := s.reservations[r := v.(stage := Ended)])
    else
      s.(owned := s.owned - {v.current},
         processes := Spawn(s, v.index, Python),
         reservations := s.reservations[r := v.(stage := Restarting(s.next))],
         next := s.next + 1)
  }

  function RestartSucceededNext(s: State, r: nat): State
    requires r in s.reservations && s.reservations[r].stage.Restarting?
  {
    var v := s.reservations[r];
    var p := v.stage.pid;
    s.(owned := s.owned + {p}, reservations := s.reservations[r := v.(current := p, stage := Running)], runs := s.runs + [p],
        tasks := s.tasks[p := v.task])
  }

  function ReleaseNext(s: State, r: nat): State
    requires r in s.reservations
  {
    var v := s.reservations[r];
    if v.released then s else s.(reservations := s.reservations[r := v.(released := true, stage := Releasing)])
  }

  function ReleaseStoppedNext(s: State, r: nat): State
    requires r in s.reservations
  {
    var v := s.reservations[r];
    if s.closed then s.(owned := s.owned - {v.current}, reservations := s.reservations - {r})
    else s.(owned := s.owned - {v.current},
            reservations := s.reservations - {r},
            processes := Spawn(s, v.index, JavaScript),
            preparing := Replenish(s, v.index),
            next := s.next + 1)
  }

  function Next(s: State, e: Event): State
    requires Enabled(s, e)
  {
    match e
    case PoolOpened => s.(serving := true)
    case StartSucceeded(task) => StartSucceededNext(s, task)
    case StartFailed(task) => StartFailedNext(s, task)
    case DelayEnded(task) => DelayEndedNext(s, task)
    case StopEnded(task) => Settled(s, task)
    case Died(p) => s.(processes := s.processes[p := s.processes[p].(alive := false)])
    case ExitSeen(p) => ExitSeenNext(s, p)
    case Reserve => ReserveNext(s)
    case Run(r, python) => RunNext(s, r, python)
    case SwapStopped(r, canceled) => SwapStoppedNext(s, r, canceled)
    case RestartSucceeded(r) => RestartSucceededNext(s, r)
    case RestartFailed(r) => s.(reservations := s.reservations[r := s.reservations[r].(stage := Ended)])
    case RunEnded(r) => s.(reservations := s.reservations[r := s.reservations[r].(stage := Ended)])
    case Release(r) => ReleaseNext(s, r)
    case ReleaseStopped(r) => ReleaseStoppedNext(s, r)
    case Close => s.(closed := true, closing := AwaitOwned(s.owned))
    case OwnedStopped => s.(closing := AwaitPreparing(s.preparing.Keys))
    case PreparingSettled => s.(owned := {}, closing := Finished)
  }

  // ----- When it happens -----

  predicate PrepareAt(s: State, task: nat) { task in s.preparing && s.preparing[task].index < |s.slots| }

  /** No run of this reservation is under way; release may be called. */
  predicate Callable(s: State, r: nat) {
    r in s.reservations && (var stage := s.reservations[r].stage; stage.Held? || stage.Ended? || stage.Releasing?)
  }

  /** The reservation is at this stage and its current process is gone. */
  predicate GoneAt(s: State, r: nat, stage: Stage) {
    r in s.reservations && s.reservations[r].stage == stage && !Alive(s, s.reservations[r].current)
  }

  /** Failed starts and stops are reported only once the process is gone (slot.ts); run ends
      by stopping its process; release follows a settled run, as the server calls it. run itself
      may be called at any time, also while an earlier call is under way. */
  predicate Enabled(s: State, e: Event) {
    match e
    case PoolOpened => !s.serving && !s.closed && s.failed == {} && forall t :: t in s.preparing ==> !s.preparing[t].initial
    case StartSucceeded(task) => PrepareAt(s, task) && s.preparing[task].at.Starting?
    case StartFailed(task) => PrepareAt(s, task) && s.preparing[task].at.Starting? && !Alive(s, s.preparing[task].at.pid)
    case DelayEnded(task) => PrepareAt(s, task) && s.preparing[task].at.Delaying?
    case StopEnded(task) => PrepareAt(s, task) && s.preparing[task].at.Stopping? && !Alive(s, s.preparing[task].at.pid)
    case Died(p) => Alive(s, p)
    case ExitSeen(p) => p in s.watched && p in s.processes && s.processes[p].ordinal < |s.slots| && !Alive(s, p)
    case Reserve => s.serving
    case Run(r, _) => r in s.reservations
    case SwapStopped(r, _) => GoneAt(s, r, Swapping)
    case RestartSucceeded(r) => r in s.reservations && s.reservations[r].stage.Restarting?
    case RestartFailed(r) => r in s.reservations && s.reservations[r].stage.Restarting? && !Alive(s, s.reservations[r].stage.pid)
    case RunEnded(r) => GoneAt(s, r, Running)
    case Release(r) => Callable(s, r)
    case ReleaseStopped(r) => GoneAt(s, r, Releasing)
    case Close => !s.closed && (s.serving || (s.failed != {} && forall t :: t in s.preparing ==> !s.preparing[t].initial))
    case OwnedStopped => s.closing.AwaitOwned? && forall p :: p in s.closing.owned ==> !Alive(s, p)
    case PreparingSettled => s.closing.AwaitPreparing? && s.closing.tasks !! s.preparing.Keys
  }

  /** Every ordinal's first preparation has spawned its process. */
  function Initial(concurrency: nat): State {
    State(
      slots := seq(concurrency, _ => None),
      owned := {},
      preparing := map i: nat | i < concurrency :: Preparation(i, true, Starting(i)),
      closed := false,
      serving := false,
      failed := {},
      reservations := map[],
      processes := map i: nat | i < concurrency :: Process(i, true, JavaScript),
      watched := {},
      runs := [],
      tasks := map[],
      closing := NotClosing,
      next := concurrency)
  }

  predicate Possible(s: State, events: seq<Event>)
    decreases |events|
  {
    events != [] ==> Enabled(s, events[0]) && Possible(Next(s, events[0]), events[1..])
  }

  function After(s: State, events: seq<Event>): State
    requires Possible(s, events)
    decreases |events|
  {
    if events == [] then s else After(Next(s, events[0]), events[1..])
  }

  // ----- What every reachable state keeps -----

  function PidOf(w: Waiting): Option<Pid> { if w.Delaying? then None else Some(w.pid) }

  /** The process exists and runs under this ordinal. */
  predicate Stands(ps: Processes, p: Pid, index: nat) { p in ps && ps[p].ordinal == index }

  /** A stage agrees with the flags, and a second process only starts after the first died. */
  predicate Staged(v: Reservation, ps: Processes) {
    && Stands(ps, v.current, v.index)
    && (v.stage.Held? ==> !v.used)
    && (v.released <==> v.stage.Releasing?)
    && (!v.stage.Held? && !v.stage.Releasing? ==> v.used)
    && (v.stage.Restarting? ==> Stands(ps, v.stage.pid, v.index) && !Lives(ps, v.current) && v.stage.pid != v.current)
    && (v.stage.Ended? ==> !Lives(ps, v.current))
    && (v.stage.Held? ==> ps[v.current].language == JavaScript)
    && (v.stage.Swapping? || v.stage.Restarting? ==> v.task == Python)
    && (v.stage.Restarting? ==> ps[v.stage.pid].language == Python)
  }

  /** Who holds an ordinal. */
  datatype Holder = AtSlot | AtPreparation(task: nat) | AtReservation(reservation: nat) | AtFailure | AtNobody

  /** The ordinal has the holder h and no other. */
  ghost predicate HeldOnlyBy(s: State, i: nat, h: Holder)
    requires i < |s.slots|
  {
    && (s.slots[i].Some? <==> h == AtSlot)
    && (i in s.failed <==> h == AtFailure)
    && (h == AtNobody ==> s.closed)
    && (h.AtPreparation? ==> h.task in s.preparing && s.preparing[h.task].index == i)
    && (h.AtReservation? ==> h.reservation in s.reservations && s.reservations[h.reservation].index == i)
    && (forall t :: t in s.preparing && s.preparing[t].index == i ==> h == AtPreparation(t))
    && (forall r :: r in s.reservations && s.reservations[r].index == i ==> h == AtReservation(r))
  }

  /** The processes a holder may have. */
  predicate Has(s: State, i: nat, h: Holder, p: Pid)
    requires i < |s.slots|
  {
    match h
    case AtSlot => s.slots[i] == Some(p)
    case AtPreparation(t) => t in s.preparing && PidOf(s.preparing[t].at) == Some(p)
    case AtReservation(r) => r in s.reservations && (s.reservations[r].current == p || s.reservations[r].stage == Restarting(p))
    case _ => false
  }

  /** A JavaScript process of this ordinal without a task. */
  predicate FreshFor(s: State, p: Pid, i: nat) {
    Stands(s.processes, p, i) && s.processes[p].language == JavaScript && p !in s.runs
  }

  /** What a holder's process still has to be: of this ordinal and, where it could be given a
      task, without one. An open pool owns what it must be able to stop and watches what is
      idle. */
  ghost predicate Sound(s: State, i: nat, h: Holder)
    requires i < |s.slots| && HeldOnlyBy(s, i, h)
  {
    match h
    case AtSlot =>
      var p := s.slots[i].value;
      FreshFor(s, p, i) && (s.closed || (p in s.owned && p in s.watched))
    case AtPreparation(t) =>
      var a := s.preparing[t];
      (a.at.Stopping? ==> s.closed) && (a.at.Delaying? || FreshFor(s, a.at.pid, i))
    case AtReservation(r) =>
      var v := s.reservations[r];
      && Staged(v, s.processes)
      && (v.stage.Held? ==> v.current !in s.runs)
      && (v.stage.Restarting? ==> v.stage.pid !in s.runs && v.stage.pid !in s.owned)
      && (s.closed || !Lives(s.processes, v.current) || v.current in s.owned)
    case _ => true
  }

  /** Everything about one ordinal. */
  ghost predicate InvAt(s: State, i: nat, h: Holder) {
    i < |s.slots| && HeldOnlyBy(s, i, h) && Sound(s, i, h)
    && forall p :: Lives(s.processes, p) && s.processes[p].ordinal == i ==> Has(s, i, h, p)
  }

  ghost predicate Global(s: State) {
    && (forall p :: p in s.processes ==> p < s.next && s.processes[p].ordinal < |s.slots|)
    && (forall t :: t in s.preparing ==> t < s.next && s.preparing[t].index < |s.slots|)
    && (forall r :: r in s.reservations ==> r < s.next && s.reservations[r].index < |s.slots|)
    && (forall j, k :: 0 <= j < k < |s.runs| ==> s.runs[j] != s.runs[k])
    && (forall p :: p in s.runs || p in s.owned ==> p in s.processes)
    && (forall p :: p in s.runs ==> p in s.tasks && s.tasks[p] == s.processes[p].language)
    && (s.serving ==> s.failed == {} && forall t :: t in s.preparing ==> !s.preparing[t].initial)
    && (s.reservations != map[] ==> s.serving)
    && (!s.closing.NotClosing? ==> s.closed)
  }

  ghost predicate Inv(s: State, holders: seq<Holder>) {
    |holders| == |s.slots| && Global(s) && forall i :: 0 <= i < |s.slots| ==> InvAt(s, i, holders[i])
  }

  /** The two states differ in nothing that concerns an ordinal other than i. */
  ghost predicate Elsewhere(s: State, n: State, i: nat) {
    && |n.slots| == |s.slots| && n.closed == s.closed && s.next <= n.next
    && (forall j :: 0 <= j < |s.slots| && j != i ==> n.slots[j] == s.slots[j])
    && (forall j :: j != i ==> (j in n.failed <==> j in s.failed))
    && (forall t :: t in s.preparing && s.preparing[t].index != i ==> t in n.preparing && n.preparing[t] == s.preparing[t])
    && (forall t :: t in n.preparing && n.preparing[t].index != i ==> t in s.preparing && n.preparing[t] == s.preparing[t])
    && (forall r :: r in s.reservations && s.reservations[r].index != i ==> r in n.reservations && n.reservations[r] == s.reservations[r])
    && (forall r :: r in n.reservations && n.reservations[r].index != i ==> r in s.reservations && n.reservations[r] == s.reservations[r])
    && (forall p :: p in s.processes && s.processes[p].ordinal != i ==> SameProcess(s, n, p))
    && (forall p :: p in n.processes && n.processes[p].ordinal != i ==> p in s.processes && n.processes[p] == s.processes[p])
  }

  ghost predicate SameProcess(s: State, n: State, p: Pid)
    requires p in s.processes
  {
    p in n.processes && n.processes[p] == s.processes[p]
    && (p in n.owned <==> p in s.owned) && (p in n.watched <==> p in s.watched) && (p in n.runs <==> p in s.runs)
  }

  lemma AtOrdinal(s: State, holders: seq<Holder>, i: nat)
    requires Inv(s, holders)
    ensures Global(s) && |holders| == |s.slots| && (i < |s.slots| ==> InvAt(s, i, holders[i]))
  {}

  lemma Unaffected(s: State, n: State, i: nat, j: nat, h: Holder)
    requires Elsewhere(s, n, i) && j != i && InvAt(s, j, h)
    ensures InvAt(n, j, h)
  {}

  /** So a step that concerns one ordinal only has to be checked there. */
  lemma Local(s: State, n: State, holders: seq<Holder>, i: nat, h: Holder)
    requires Inv(s, holders) && Global(n) && i < |s.slots| && Elsewhere(s, n, i) && InvAt(n, i, h)
    ensures Inv(n, holders[i := h])
  {
    var moved := holders[i := h];
    forall j | 0 <= j < |n.slots|
      ensures InvAt(n, j, moved[j])
    {
      if j != i {
        Unaffected(s, n, i, j, holders[j]);
      }
    }
  }

  lemma InitialInv(n: nat)
    ensures Inv(Initial(n), seq(n, i requires 0 <= i < n => AtPreparation(i)))
  {}

  lemma StartedOpenElsewhere(s: State, task: nat)
    requires Global(s) && PrepareAt(s, task) && s.preparing[task].at.Starting? && !s.closed
    requires Stands(s.processes, s.preparing[task].at.pid, s.preparing[task].index)
    ensures Elsewhere(s, StartSucceededNext(s, task), s.preparing[task].index) && Global(StartSucceededNext(s, task))
  {}

  lemma StartedOpen(s: State, holders: seq<Holder>, task: nat, n: State)
    requires Inv(s, holders) && PrepareAt(s, task) && s.preparing[task].at.Starting? && !s.closed && n == StartSucceededNext(s, task)
    ensures Inv(n, holders[s.preparing[task].index := AtSlot])
  {
    hide Inv;
    AtOrdinal(s, holders, s.preparing[task].index);
    StartedOpenElsewhere(s, task);
    assert InvAt(n, s.preparing[task].index, AtSlot) by {
      hide Elsewhere, Global;
    }
    Local(s, n, holders, s.preparing[task].index, AtSlot);
  }

  /** A step that only changes the preparation of one ordinal. */
  lemma PreparationOnly(s: State, task: nat, a: Preparation)
    requires Global(s) && task in s.preparing && a.index == s.preparing[task].index && (a.initial ==> s.preparing[task].initial)
    ensures Elsewhere(s, s.(preparing := s.preparing[task := a]), a.index)
    ensures Global(s.(preparing := s.preparing[task := a]))
  {}

  lemma StartedClosedAt(s: State, h: Holder, task: nat)
    requires Global(s) && PrepareAt(s, task) && s.preparing[task].at.Starting? && s.closed && InvAt(s, s.preparing[task].index, h)
    ensures InvAt(StartSucceededNext(s, task), s.preparing[task].index, AtPreparation(task))
  {}

  lemma StartedClosed(s: State, holders: seq<Holder>, task: nat, n: State)
    requires Inv(s, holders) && PrepareAt(s, task) && s.preparing[task].at.Starting? && s.closed && n == StartSucceededNext(s, task)
    ensures Inv(n, holders[s.preparing[task].index := AtPreparation(task)])
  {
    hide Inv;
    var i := s.preparing[task].index;
    AtOrdinal(s, holders, i);
    StartedClosedAt(s, holders[i], task);
    PreparationOnly(s, task, n.preparing[task]);
    hide InvAt, Elsewhere, Global;
    Local(s, n, holders, i, AtPreparation(task));
  }

  lemma FirstStartFailed(s: State, holders: seq<Holder>, task: nat, n: State)
    requires Inv(s, holders) && PrepareAt(s, task) && s.preparing[task].at.Starting? && s.preparing[task].initial && !s.closed
    requires !Alive(s, s.preparing[task].at.pid) && n == StartFailedNext(s, task)
    ensures Inv(n, holders[s.preparing[task].index := AtFailure])
  {
    hide Inv;
    AtOrdinal(s, holders, s.preparing[task].index);
    Local(s, n, holders, s.preparing[task].index, AtFailure);
  }

  lemma StartFailedAgainAt(s: State, h: Holder, task: nat)
    requires Global(s) && PrepareAt(s, task) && s.preparing[task].at.Starting? && !s.preparing[task].initial && !s.closed
    requires !Alive(s, s.preparing[task].at.pid) && InvAt(s, s.preparing[task].index, h)
    ensures InvAt(StartFailedNext(s, task), s.preparing[task].index, AtPreparation(task))
  {}

  lemma StartFailedAgain(s: State, holders: seq<Holder>, task: nat, n: State)
    requires Inv(s, holders) && PrepareAt(s, task) && s.preparing[task].at.Starting? && !s.preparing[task].initial && !s.closed
    requires !Alive(s, s.preparing[task].at.pid) && n == StartFailedNext(s, task)
    ensures Inv(n, holders[s.preparing[task].index := AtPreparation(task)])
  {
    hide Inv;
    var i := s.preparing[task].index;
    AtOrdinal(s, holders, i);
    StartFailedAgainAt(s, holders[i], task);
    PreparationOnly(s, task, n.preparing[task]);
    hide InvAt, Elsewhere, Global;
    Local(s, n, holders, i, AtPreparation(task));
  }

  lemma PreparationGivenUp(s: State, holders: seq<Holder>, task: nat, n: State)
    requires Inv(s, holders) && PrepareAt(s, task) && s.closed && n == Settled(s, task)
    requires s.preparing[task].at.Delaying? || !Alive(s, s.preparing[task].at.pid)
    ensures Inv(n, holders[s.preparing[task].index := AtNobody])
  {
    hide Inv;
    AtOrdinal(s, holders, s.preparing[task].index);
    Local(s, n, holders, s.preparing[task].index, AtNobody);
  }

  lemma DelayEndedOpen(s: State, holders: seq<Holder>, task: nat, n: State)
    requires Inv(s, holders) && PrepareAt(s, task) && s.preparing[task].at.Delaying? && !s.closed && n == DelayEndedNext(s, task)
    ensures Inv(n, holders[s.preparing[task].index := AtPreparation(task)])
  {
    hide Inv;
    var i := s.preparing[task].index;
    AtOrdinal(s, holders, i);
    DelayEndedAt(s, holders[i], task);
    hide InvAt;
    DelayEndedElsewhere(s, task);
    assert Global(n) by {
      hide Elsewhere;
    }
    hide Elsewhere, Global;
    Local(s, n, holders, i, AtPreparation(task));
  }

  lemma DelayEndedElsewhere(s: State, task: nat)
    requires Global(s) && PrepareAt(s, task) && s.preparing[task].at.Delaying? && !s.closed
    ensures Elsewhere(s, DelayEndedNext(s, task), s.preparing[task].index)
  {}

  lemma DelayEndedAt(s: State, h: Holder, task: nat)
    requires Global(s) && PrepareAt(s, task) && s.preparing[task].at.Delaying? && !s.closed
    requires InvAt(s, s.preparing[task].index, h)
    ensures InvAt(DelayEndedNext(s, task), s.preparing[task].index, AtPreparation(task))
  {}

  lemma DiedAt(s: State, i: nat, h: Holder, p: Pid)
    requires Alive(s, p) && InvAt(s, i, h) && s.processes[p].ordinal == i
    ensures InvAt(s.(processes := s.processes[p := s.processes[p].(alive := false)]), i, h)
  {}

  lemma ProcessDied(s: State, holders: seq<Holder>, p: Pid, n: State)
    requires Inv(s, holders) && Alive(s, p) && n == s.(processes := s.processes[p := s.processes[p].(alive := false)])
    ensures Inv(n, holders[s.processes[p].ordinal := holders[s.processes[p].ordinal]])
  {
    hide Inv;
    AtOrdinal(s, holders, s.processes[p].ordinal);
    assert Elsewhere(s, n, s.processes[p].ordinal) by {
      hide InvAt;
    }
    assert Global(n) by {
      hide InvAt, Elsewhere;
    }
    DiedAt(s, s.processes[p].ordinal, holders[s.processes[p].ordinal], p);
    Local(s, n, holders, s.processes[p].ordinal, holders[s.processes[p].ordinal]);
  }

  lemma ExitReplacedElsewhere(s: State, p: Pid)
    requires Global(s) && p in s.processes && !s.closed && s.slots[s.processes[p].ordinal] == Some(p)
    ensures Elsewhere(s, ExitSeenNext(s, p), s.processes[p].ordinal)
  {}

  lemma ExitReplaced(s: State, holders: seq<Holder>, p: Pid, n: State)
    requires Inv(s, holders) && p in s.processes && !Alive(s, p) && !s.closed
    requires var i := s.processes[p].ordinal; i < |s.slots| && s.slots[i] == Some(p)
    requires n == ExitSeenNext(s, p)
    ensures Inv(n, holders[s.processes[p].ordinal := AtPreparation(s.next)])
  {
    hide Inv;
    AtOrdinal(s, holders, s.processes[p].ordinal);
    assert Elsewhere(s, n, s.processes[p].ordinal) by {
      ExitReplacedElsewhere(s, p);
    }
    Local(s, n, holders, s.processes[p].ordinal, AtPreparation(s.next));
  }

  lemma ExitIgnored(s: State, holders: seq<Holder>, p: Pid, n: State)
    requires Inv(s, holders) && p in s.processes && !Alive(s, p) && n == s.(watched := s.watched - {p})
    requires var i := s.processes[p].ordinal; s.closed || (i < |s.slots| && s.slots[i] != Some(p))
    ensures Inv(n, holders[s.processes[p].ordinal := holders[s.processes[p].ordinal]])
  {
    hide Inv;
    AtOrdinal(s, holders, s.processes[p].ordinal);
    assert Elsewhere(s, n, s.processes[p].ordinal) by {
      hide InvAt;
    }
    assert Global(n) by {
      hide InvAt, Elsewhere;
    }
    assert InvAt(n, s.processes[p].ordinal, holders[s.processes[p].ordinal]) by {
      hide Elsewhere, Global;
    }
    Local(s, n, holders, s.processes[p].ordinal, holders[s.processes[p].ordinal]);
  }

  lemma Reserved(s: State, holders: seq<Holder>, index: nat, n: State)
    requires Inv(s, holders) && s.serving && !s.closed && index < |s.slots| && s.slots[index].Some?
    requires n == Taken(s, index)
    ensures Inv(n, holders[index := AtReservation(s.next)])
  {
    hide Inv;
    AtOrdinal(s, holders, index);
    Local(s, n, holders, index, AtReservation(s.next));
  }

  /** A step that only changes the reservation of one ordinal. */
  lemma ReservationOnly(s: State, r: nat, v: Reservation)
    requires Global(s) && r in s.reservations && v.index == s.reservations[r].index
    ensures Elsewhere(s, s.(reservations := s.reservations[r := v]), v.index)
    ensures Global(s.(reservations := s.reservations[r := v]))
  {}

  lemma RunStartedAt(s: State, h: Holder, r: nat, python: bool)
    requires Global(s) && Callable(s, r) && !s.reservations[r].used && !s.reservations[r].released && !s.closed
    requires InvAt(s, s.reservations[r].index, h)
    ensures InvAt(RunNext(s, r, python), s.reservations[r].index, AtReservation(r))
    ensures FreshFor(s, s.reservations[r].current, s.reservations[r].index)
  {}

  lemma PythonRunStarted(s: State, holders: seq<Holder>, r: nat, n: State)
    requires Inv(s, holders) && Callable(s, r) && !s.reservations[r].used && !s.reservations[r].released && !s.closed
    requires n == RunNext(s, r, true)
    ensures Inv(n, holders[s.reservations[r].index := AtReservation(r)])
  {
    hide Inv;
    var i := s.reservations[r].index;
    AtOrdinal(s, holders, i);
    RunStartedAt(s, holders[i], r, true);
    ReservationOnly(s, r, n.reservations[r]);
    hide InvAt, Elsewhere, Global;
    Local(s, n, holders, i, AtReservation(r));
  }

  /** The task goes to the reservation's process, which has not had one. */
  lemma RunStartedElsewhere(s: State, r: nat)
    requires Global(s) && Callable(s, r) && !s.reservations[r].used && !s.reservations[r].released && !s.closed
    requires FreshFor(s, s.reservations[r].current, s.reservations[r].index)
    ensures Elsewhere(s, RunNext(s, r, false), s.reservations[r].index)
  {}

  lemma RunStartedGlobal(s: State, r: nat)
    requires Global(s) && Callable(s, r) && !s.reservations[r].used && !s.reservations[r].released && !s.closed
    requires FreshFor(s, s.reservations[r].current, s.reservations[r].index)
    ensures Global(RunNext(s, r, false))
  {}

  lemma RunStarted(s: State, holders: seq<Holder>, r: nat, n: State)
    requires Inv(s, holders) && Callable(s, r) && !s.reservations[r].used && !s.reservations[r].released && !s.closed
    requires n == RunNext(s, r, false)
    ensures Inv(n, holders[s.reservations[r].index := AtReservation(r)])
  {
    hide Inv;
    var i := s.reservations[r].index;
    AtOrdinal(s, holders, i);
    RunStartedAt(s, holders[i], r, false);
    RunStartedElsewhere(s, r);
    RunStartedGlobal(s, r);
    hide InvAt, Elsewhere, Global;
    Local(s, n, holders, i, AtReservation(r));
  }

  lemma SwapGivenUpAt(s: State, h: Holder, r: nat, canceled: bool)
    requires Global(s) && GoneAt(s, r, Swapping) && (s.closed || canceled) && InvAt(s, s.reservations[r].index, h)
    ensures InvAt(SwapStoppedNext(s, r, canceled), s.reservations[r].index, AtReservation(r))
  {}

  lemma SwapGivenUp(s: State, holders: seq<Holder>, r: nat, canceled: bool, n: State)
    requires Inv(s, holders) && GoneAt(s, r, Swapping) && (s.closed || canceled) && n == SwapStoppedNext(s, r, canceled)
    ensures Inv(n, holders[s.reservations[r].index := AtReservation(r)])
  {
    hide Inv;
    var i := s.reservations[r].index;
    AtOrdinal(s, holders, i);
    SwapGivenUpAt(s, holders[i], r, canceled);
    hide InvAt;
    SwapGivenUpElsewhere(s, r, canceled);
    SwapGivenUpGlobal(s, r, canceled);
    Local(s, n, holders, i, AtReservation(r));
  }

  lemma SwapGivenUpElsewhere(s: State, r: nat, canceled: bool)
    requires Global(s) && GoneAt(s, r, Swapping) && (s.closed || canceled)
    requires Stands(s.processes, s.reservations[r].current, s.reservations[r].index)
    ensures Elsewhere(s, SwapStoppedNext(s, r, canceled), s.reservations[r].index)
  {}

  lemma SwapGivenUpGlobal(s: State, r: nat, canceled: bool)
    requires Global(s) && GoneAt(s, r, Swapping) && (s.closed || canceled)
    requires Stands(s.processes, s.reservations[r].current, s.reservations[r].index)
    ensures Global(SwapStoppedNext(s, r, canceled))
  {}

  lemma SwapStartedElsewhere(s: State, r: nat)
    requires Global(s) && r in s.reservations && !s.closed && Stands(s.processes, s.reservations[r].current, s.reservations[r].index)
    ensures Elsewhere(s, SwapStoppedNext(s, r, false), s.reservations[r].index)
  {}

  lemma SwapStarted(s: State, holders: seq<Holder>, r: nat, n: State)
    requires Inv(s, holders) && GoneAt(s, r, Swapping) && !s.closed && n == SwapStoppedNext(s, r, false)
    ensures Inv(n, holders[s.reservations[r].index := AtReservation(r)])
  {
    hide Inv;
    AtOrdinal(s, holders, s.reservations[r].index);
    assert Elsewhere(s, n, s.reservations[r].index) by {
      SwapStartedElsewhere(s, r);
    }
    Local(s, n, holders, s.reservations[r].index, AtReservation(r));
  }

  lemma RestartedAt(s: State, h: Holder, r: nat)
    requires Global(s) && r in s.reservations && s.reservations[r].stage.Restarting? && InvAt(s, s.reservations[r].index, h)
    ensures InvAt(RestartSucceededNext(s, r), s.reservations[r].index, AtReservation(r))
    ensures Staged(s.reservations[r], s.processes) && s.reservations[r].stage.pid !in s.runs
  {}

  lemma RestartedElsewhere(s: State, r: nat)
    requires Global(s) && r in s.reservations && s.reservations[r].stage.Restarting?
    requires Staged(s.reservations[r], s.processes) && s.reservations[r].stage.pid !in s.runs
    ensures Elsewhere(s, RestartSucceededNext(s, r), s.reservations[r].index)
  {}

  lemma RestartedGlobal(s: State, r: nat)
    requires Global(s) && r in s.reservations && s.reservations[r].stage.Restarting?
    requires Staged(s.reservations[r], s.processes) && s.reservations[r].stage.pid !in s.runs
    ensures Global(RestartSucceededNext(s, r))
  {}

  lemma Restarted(s: State, holders: seq<Holder>, r: nat, n: State)
    requires Inv(s, holders) && r in s.reservations && s.reservations[r].stage.Restarting? && n == RestartSucceededNext(s, r)
    ensures Inv(n, holders[s.reservations[r].index := AtReservation(r)])
  {
    hide Inv;
    var i := s.reservations[r].index;
    AtOrdinal(s, holders, i);
    RestartedAt(s, holders[i], r);
    RestartedElsewhere(s, r);
    RestartedGlobal(s, r);
    hide InvAt, Elsewhere, Global;
    Local(s, n, holders, i, AtReservation(r));
  }

  lemma RunSettledAt(s: State, h: Holder, r: nat)
    requires Global(s) && r in s.reservations && !Alive(s, s.reservations[r].current) && InvAt(s, s.reservations[r].index, h)
    requires var v := s.reservations[r].stage; v.Running? || (v.Restarting? && !Alive(s, v.pid))
    ensures InvAt(s.(reservations := s.reservations[r := s.reservations[r].(stage := Ended)]), s.reservations[r].index, AtReservation(r))
  {}

  lemma RunSettled(s: State, holders: seq<Holder>, r: nat, n: State)
    requires Inv(s, holders) && r in s.reservations && !Alive(s, s.reservations[r].current)
    requires var v := s.reservations[r].stage; v.Running? || (v.Restarting? && !Alive(s, v.pid))
    requires n == s.(reservations := s.reservations[r := s.reservations[r].(stage := Ended)])
    ensures Inv(n, holders[s.reservations[r].index := AtReservation(r)])
  {
    hide Inv;
    var i := s.reservations[r].index;
    AtOrdinal(s, holders, i);
    RunSettledAt(s, holders[i], r);
    ReservationOnly(s, r, n.reservations[r]);
    hide InvAt, Elsewhere, Global;
    Local(s, n, holders, i, AtReservation(r));
  }

  lemma ReleaseBegunAt(s: State, h: Holder, r: nat)
    requires Global(s) && Callable(s, r) && !s.reservations[r].released && InvAt(s, s.reservations[r].index, h)
    ensures InvAt(ReleaseNext(s, r), s.reservations[r].index, AtReservation(r))
  {}

  lemma ReleaseBegun(s: State, holders: seq<Holder>, r: nat, n: State)
    requires Inv(s, holders) && Callable(s, r) && !s.reservations[r].released && n == ReleaseNext(s, r)
    ensures Inv(n, holders[s.reservations[r].index := AtReservation(r)])
  {
    hide Inv;
    var i := s.reservations[r].index;
    AtOrdinal(s, holders, i);
    ReleaseBegunAt(s, holders[i], r);
    ReservationOnly(s, r, n.reservations[r]);
    hide InvAt, Elsewhere, Global;
    Local(s, n, holders, i, AtReservation(r));
  }

  lemma ReleasedClosed(s: State, holders: seq<Holder>, r: nat, n: State)
    requires Inv(s, holders) && GoneAt(s, r, Releasing) && s.closed && n == ReleaseStoppedNext(s, r)
    ensures Inv(n, holders[s.reservations[r].index := AtNobody])
  {
    hide Inv;
    AtOrdinal(s, holders, s.reservations[r].index);
    Local(s, n, holders, s.reservations[r].index, AtNobody);
  }

  lemma ReleaseReplacedElsewhere(s: State, r: nat)
    requires Global(s) && r in s.reservations && !s.closed && Stands(s.processes, s.reservations[r].current, s.reservations[r].index)
    ensures Elsewhere(s, ReleaseStoppedNext(s, r), s.reservations[r].index)
  {}

  lemma ReleaseReplacedAt(s: State, h: Holder, r: nat)
    requires Global(s) && GoneAt(s, r, Releasing) && !s.closed && InvAt(s, s.reservations[r].index, h)
    ensures InvAt(ReleaseStoppedNext(s, r), s.reservations[r].index, AtPreparation(s.next))
  {}

  lemma ReleaseReplaced(s: State, holders: seq<Holder>, r: nat, n: State)
    requires Inv(s, holders) && GoneAt(s, r, Releasing) && !s.closed && n == ReleaseStoppedNext(s, r)
    ensures Inv(n, holders[s.reservations[r].index := AtPreparation(s.next)])
  {
    hide Inv;
    var i := s.reservations[r].index;
    AtOrdinal(s, holders, i);
    ReleaseReplacedAt(s, holders[i], r);
    ReleaseReplacedElsewhere(s, r);
    assert Global(n) by {
      hide InvAt, Elsewhere;
    }
    hide InvAt, Elsewhere, Global;
    Local(s, n, holders, i, AtPreparation(s.next));
  }

  /** Opening, and the steps of close, concern no ordinal. */
  lemma ProgressOnly(s: State, holders: seq<Holder>, n: State)
    requires Inv(s, holders)
    requires n == s.(serving := n.serving, closed := n.closed, closing := n.closing, owned := n.owned)
    requires n.owned <= s.owned && (n.closed || (!s.closed && n.owned == s.owned && n.closing.NotClosing?))
    requires s.serving ==> n.serving
    requires n.serving ==> s.failed == {} && forall t :: t in s.preparing ==> !s.preparing[t].initial
    ensures Inv(n, holders)
  {
    forall i | 0 <= i < |n.slots|
      ensures InvAt(n, i, holders[i])
    {
      assert InvAt(s, i, holders[i]);
    }
  }

  // ----- Every reachable state -----

  /** Each event keeps the invariant; only some move an ordinal to another holder. */
  lemma StepInv(s: State, holders: seq<Holder>, e: Event) returns (h: seq<Holder>)
    requires Inv(s, holders) && Enabled(s, e)
    ensures Inv(Next(s, e), h)
  {
    hide InvAt;
    h := holders;
    var n := Next(s, e);
    match e
    case StartSucceeded(task) =>
      var i := s.preparing[task].index;
      if s.closed {
        StartedClosed(s, holders, task, n);
        h := holders[i := AtPreparation(task)];
      } else {
        StartedOpen(s, holders, task, n);
        h := holders[i := AtSlot];
      }
    case StartFailed(task) =>
      var i := s.preparing[task].index;
      if s.closed {
        PreparationGivenUp(s, holders, task, n);
        h := holders[i := AtNobody];
      } else if s.preparing[task].initial {
        FirstStartFailed(s, holders, task, n);
        h := holders[i := AtFailure];
      } else {
        StartFailedAgain(s, holders, task, n);
        h := holders[i := AtPreparation(task)];
      }
    case DelayEnded(task) =>
      var i := s.preparing[task].index;
      if s.closed {
        PreparationGivenUp(s, holders, task, n);
        h := holders[i := AtNobody];
      } else {
        DelayEndedOpen(s, holders, task, n);
        h := holders[i := AtPreparation(task)];
      }
    case StopEnded(task) =>
      StoppingMeansClosed(s, holders, task);
      PreparationGivenUp(s, holders, task, n);
      h := holders[s.preparing[task].index := AtNobody];
    case Died(p) =>
      var i := s.processes[p].ordinal;
      ProcessDied(s, holders, p, n);
      h := holders[i := holders[i]];
    case ExitSeen(p) =>
      var i := s.processes[p].ordinal;
      if !s.closed && s.slots[i] == Some(p) {
        ExitReplaced(s, holders, p, n);
        h := holders[i := AtPreparation(s.next)];
      } else {
        ExitIgnored(s, holders, p, n);
        h := holders[i := holders[i]];
      }
    case Reserve =>
      var idle := FirstIdle(s.slots, 0);
      if !s.closed && idle.Some? {
        Reserved(s, holders, idle.value, n);
        h := holders[idle.value := AtReservation(s.next)];
      }
    case Run(r, python) =>
      if !s.reservations[r].used && !s.reservations[r].released && !s.closed {
        UnusedIsHeld(s, holders, r);
        if python {
          PythonRunStarted(s, holders, r, n);
        } else {
          RunStarted(s, holders, r, n);
        }
        h := holders[s.reservations[r].index := AtReservation(r)];
      }
    case SwapStopped(r, canceled) =>
      if s.closed || canceled {
        SwapGivenUp(s, holders, r, canceled, n);
      } else {
        SwapStarted(s, holders, r, n);
      }
      h := holders[s.reservations[r].index := AtReservation(r)];
    case RestartSucceeded(r) =>
      Restarted(s, holders, r, n);
      h := holders[s.reservations[r].index := AtReservation(r)];
    case RestartFailed(r) =>
      RestartingMeansGone(s, holders, r);
      RunSettled(s, holders, r, n);
      h := holders[s.reservations[r].index := AtReservation(r)];
    case RunEnded(r) =>
      RunSettled(s, holders, r, n);
      h := holders[s.reservations[r].index := AtReservation(r)];
    case Release(r) =>
      if !s.reservations[r].released {
        ReleaseBegun(s, holders, r, n);
        h := holders[s.reservations[r].index := AtReservation(r)];
      }
    case ReleaseStopped(r) =>
      var i := s.reservations[r].index;
      if s.closed {
        ReleasedClosed(s, holders, r, n);
        h := holders[i := AtNobody];
      } else {
        ReleaseReplaced(s, holders, r, n);
        h := holders[i := AtPreparation(s.next)];
      }
    case _ => ProgressOnly(s, holders, n);
  }

  /** What the used flag guards: an unused, unreleased reservation has nothing under way. */
  lemma UnusedIsHeld(s: State, holders: seq<Holder>, r: nat)
    requires Inv(s, holders) && r in s.reservations && !s.reservations[r].used && !s.reservations[r].released
    ensures s.reservations[r].stage.Held?
  {
    assert InvAt(s, s.reservations[r].index, holders[s.reservations[r].index]);
  }

  lemma StoppingMeansClosed(s: State, holders: seq<Holder>, task: nat)
    requires Inv(s, holders) && task in s.preparing && s.preparing[task].at.Stopping?
    ensures s.closed
  {
    assert InvAt(s, s.preparing[task].index, holders[s.preparing[task].index]);
  }

  lemma RestartingMeansGone(s: State, holders: seq<Holder>, r: nat)
    requires Inv(s, holders) && r in s.reservations && s.reservations[r].stage.Restarting?
    ensures !Alive(s, s.reservations[r].current)
  {
    assert InvAt(s, s.reservations[r].index, holders[s.reservations[r].index]);
  }

  lemma {:induction false} RunInv(s: State, holders: seq<Holder>, events: seq<Event>) returns (h: seq<Holder>)
    requires Inv(s, holders) && Possible(s, events)
    ensures Inv(After(s, events), h)
    decreases |events|
  {
    h := holders;
    if events != [] {
      h := StepInv(s, holders, events[0]);
      h := RunInv(Next(s, events[0]), h, events[1..]);
    }
  }

  /** Every interleaving of starts, failures, exits, swaps and releases from the beginning. */
  lemma ReachableInv(concurrency: nat, events: seq<Event>) returns (h: seq<Holder>)
    requires Possible(Initial(concurrency), events)
    ensures Inv(After(Initial(concurrency), events), h)
  {
    InitialInv(concurrency);
    h := RunInv(Initial(concurrency), seq(concurrency, i requires 0 <= i < concurrency => AtPreparation(i)), events);
  }

  /** No ordinal, and so no uid, ever has two live processes. */
  lemma OneProcessPerOrdinal(concurrency: nat, events: seq<Event>, p: Pid, q: Pid)
    requires Possible(Initial(concurrency), events)
    requires var s := After(Initial(concurrency), events);
             Alive(s, p) && Alive(s, q) && s.processes[p].ordinal == s.processes[q].ordinal
    ensures p == q
  {
    var h := ReachableInv(concurrency, events);
    var s := After(Initial(concurrency), events);
    var i := s.processes[p].ordinal;
    assert InvAt(s, i, h[i]);
  }

  /** No process is ever handed a second task. */
  lemma ProcessesAreSingleUse(concurrency: nat, events: seq<Event>)
    requires Possible(Initial(concurrency), events)
    ensures var runs := After(Initial(concurrency), events).runs;
            forall j, k :: 0 <= j < k < |runs| ==> runs[j] != runs[k]
  {
    var h := ReachableInv(concurrency, events);
  }

  /** A task only ever runs in a process that was started for its language. */
  lemma TasksRunInTheirLanguage(concurrency: nat, events: seq<Event>, p: Pid)
    requires Possible(Initial(concurrency), events)
    ensures var s := After(Initial(concurrency), events);
            p in s.runs ==> p in s.tasks && p in s.processes && s.processes[p].language == s.tasks[p]
  {
    var h := ReachableInv(concurrency, events);
  }

  /** What an accepted call of run does: a JavaScript task goes to the reserved process at once, and
      nothing else is touched; a Python task is given to no process yet. */
  lemma AcceptedRun(s: State, r: nat, python: bool)
    requires r in s.reservations && !s.reservations[r].used && !s.reservations[r].released && !s.closed
    ensures var n := Next(s, Run(r, python));
            && r in n.reservations && n.reservations[r].current == s.reservations[r].current && n.reservations[r].used
            && n.processes == s.processes && n.owned == s.owned && n.slots == s.slots && n.preparing == s.preparing
            && n.reservations[r].task == (if python then Python else JavaScript)
            && (!python ==>
                  && n.runs == s.runs + [s.reservations[r].current]
                  && n.tasks == s.tasks[s.reservations[r].current := JavaScript]
                  && n.reservations[r].stage.Running?)
            && (python ==> n.runs == s.runs && n.tasks == s.tasks && n.reservations[r].stage.Swapping?)
  {
  }

  /** A process is given a task by an accepted JavaScript run, which uses the process it reserved, and
      by a Python restart that succeeded, which uses the restarted one; by nothing else. */
  lemma WhoIsGivenATask(s: State, e: Event)
    requires Enabled(s, e)
    ensures Next(s, e).runs == s.runs + match e
                                        case Run(r, python) =>
                                          var v := s.reservations[r];
                                          if v.used || v.released || s.closed || python then [] else [v.current]
                                        case RestartSucceeded(r) => [s.reservations[r].stage.pid]
                                        case _ => []
  {
    assert s.runs + [] == s.runs;
  }

  predicate IsHeld(s: State, p: Pid) {
    (exists i :: 0 <= i < |s.slots| && s.slots[i] == Some(p))
    || exists r :: r in s.reservations && s.reservations[r].current == p
  }

  /** The pool owns no process that it has neither idle nor reserved: one that ended, was swapped out or
      released is forgotten. */
  ghost predicate OwnedAreHeld(s: State) {
    && (forall p :: p in s.owned ==> IsHeld(s, p))
    && (forall r :: r in s.reservations && s.reservations[r].stage.Restarting? ==> s.reservations[r].current !in s.owned)
  }

  /** A process stays held if each place that it was held at says so. */
  lemma StaysHeld(s: State, n: State, p: Pid)
    requires IsHeld(s, p)
    requires forall i :: 0 <= i < |s.slots| && s.slots[i] == Some(p) ==> IsHeld(n, p)
    requires forall r :: r in s.reservations && s.reservations[r].current == p ==> IsHeld(n, p)
    ensures IsHeld(n, p)
  {
  }

  lemma OwnedAtStart(s: State, holders: seq<Holder>, task: nat)
    requires Inv(s, holders) && OwnedAreHeld(s) && Enabled(s, StartSucceeded(task)) && !s.closed
    ensures OwnedAreHeld(StartSucceededNext(s, task))
  {
    hide Inv;
    var a, n := s.preparing[task], StartSucceededNext(s, task);
    AtOrdinal(s, holders, a.index);
    assert s.slots[a.index] == None && n.slots[a.index] == Some(a.at.pid);
    forall p | p in n.owned
      ensures IsHeld(n, p)
    {
      if p in s.owned {
        forall i | 0 <= i < |s.slots| && s.slots[i] == Some(p)
          ensures IsHeld(n, p)
        {
          assert n.slots[i] == Some(p);
        }
        StaysHeld(s, n, p);
      }
    }
    forall r | r in n.reservations && n.reservations[r].stage.Restarting?
      ensures n.reservations[r].current !in n.owned
    {
      AtOrdinal(s, holders, s.reservations[r].index);
    }
  }

  lemma OwnedAtReserve(s: State, index: nat)
    requires Global(s) && OwnedAreHeld(s) && index < |s.slots| && s.slots[index].Some?
    ensures OwnedAreHeld(Taken(s, index))
  {
    var n := Taken(s, index);
    assert s.next in n.reservations && n.reservations[s.next].current == s.slots[index].value;
    forall p | p in n.owned
      ensures IsHeld(n, p)
    {
      forall i | 0 <= i < |s.slots| && s.slots[i] == Some(p)
        ensures IsHeld(n, p)
      {
        assert i != index ==> n.slots[i] == Some(p);
      }
      forall r | r in s.reservations && s.reservations[r].current == p
        ensures IsHeld(n, p)
      {
        assert r in n.reservations && n.reservations[r].current == p;
      }
      StaysHeld(s, n, p);
    }
  }

  lemma OwnedAtRestart(s: State, holders: seq<Holder>, r: nat)
    requires Inv(s, holders) && OwnedAreHeld(s) && r in s.reservations && s.reservations[r].stage.Restarting?
    ensures OwnedAreHeld(RestartSucceededNext(s, r))
  {
    hide Inv;
    var n, pid := RestartSucceededNext(s, r), s.reservations[r].stage.pid;
    AtOrdinal(s, holders, 0);
    AtOrdinal(s, holders, s.reservations[r].index);
    assert r in n.reservations && n.reservations[r].current == pid;
    forall p | p in n.owned
      ensures IsHeld(n, p)
    {
      if p in s.owned {
        forall i | 0 <= i < |s.slots| && s.slots[i] == Some(p)
          ensures IsHeld(n, p)
        {
          assert n.slots[i] == Some(p);
        }
        forall q | q in s.reservations && s.reservations[q].current == p
          ensures IsHeld(n, p)
        {
          assert q != r && q in n.reservations && n.reservations[q].current == p;
        }
        StaysHeld(s, n, p);
      }
    }
    forall q | q in n.reservations && n.reservations[q].stage.Restarting?
      ensures n.reservations[q].current !in n.owned
    {
      AtOrdinal(s, holders, s.reservations[q].index);
    }
  }

  /** Nothing new is owned, and what is still owned is where it was. */
  ghost predicate KeepsPlaces(s: State, n: State) {
    && n.owned <= s.owned && |n.slots| == |s.slots|
    && (forall i :: 0 <= i < |s.slots| && s.slots[i].Some? && s.slots[i].value in n.owned ==> n.slots[i] == s.slots[i])
    && (forall r :: r in s.reservations && s.reservations[r].current in n.owned ==>
          r in n.reservations && n.reservations[r].current == s.reservations[r].current)
    && (forall r :: r in n.reservations && n.reservations[r].stage.Restarting? ==>
          n.reservations[r].current !in n.owned || (r in s.reservations && s.reservations[r] == n.reservations[r]))
  }

  lemma OwnedStays(s: State, n: State)
    requires OwnedAreHeld(s) && KeepsPlaces(s, n)
    ensures OwnedAreHeld(n)
  {
    forall p | p in n.owned
      ensures IsHeld(n, p)
    {
      forall i | 0 <= i < |s.slots| && s.slots[i] == Some(p)
        ensures IsHeld(n, p)
      {
        assert n.slots[i] == Some(p);
      }
      forall r | r in s.reservations && s.reservations[r].current == p
        ensures IsHeld(n, p)
      {
        assert r in n.reservations && n.reservations[r].current == p;
      }
      StaysHeld(s, n, p);
    }
  }

  lemma PlacesAtExit(s: State, p: Pid)
    requires p in s.processes && s.processes[p].ordinal < |s.slots|
    ensures KeepsPlaces(s, ExitSeenNext(s, p))
  {
  }

  lemma PlacesAtSwap(s: State, r: nat, canceled: bool)
    requires r in s.reservations
    ensures KeepsPlaces(s, SwapStoppedNext(s, r, canceled))
  {
  }

  lemma PlacesAtRelease(s: State, r: nat)
    requires r in s.reservations
    ensures KeepsPlaces(s, ReleaseStoppedNext(s, r))
  {
  }

  lemma PlacesOtherwise(s: State, e: Event)
    requires Enabled(s, e) && !e.Reserve? && !e.RestartSucceeded? && (e.StartSucceeded? ==> s.closed)
    requires !e.ExitSeen? && !e.SwapStopped? && !e.ReleaseStopped?
    ensures KeepsPlaces(s, Next(s, e))
  {
  }

  /** The other steps let go of a process before they forget where it was. */
  lemma OwnedOtherwise(s: State, e: Event)
    requires OwnedAreHeld(s) && Enabled(s, e)
    requires !e.Reserve? && !e.RestartSucceeded? && (e.StartSucceeded? ==> s.closed)
    ensures OwnedAreHeld(Next(s, e))
  {
    hide OwnedAreHeld, KeepsPlaces;
    if e.ExitSeen? {
      PlacesAtExit(s, e.pid);
      OwnedStays(s, ExitSeenNext(s, e.pid));
    } else if e.SwapStopped? {
      PlacesAtSwap(s, e.reservation, e.canceled);
      OwnedStays(s, SwapStoppedNext(s, e.reservation, e.canceled));
    } else if e.ReleaseStopped? {
      PlacesAtRelease(s, e.reservation);
      OwnedStays(s, ReleaseStoppedNext(s, e.reservation));
    } else {
      PlacesOtherwise(s, e);
      hide Next, Enabled;
      OwnedStays(s, Next(s, e));
    }
  }

  lemma StepOwned(s: State, holders: seq<Holder>, e: Event)
    requires Inv(s, holders) && OwnedAreHeld(s) && Enabled(s, e)
    ensures OwnedAreHeld(Next(s, e))
  {
    hide OwnedAreHeld, Inv;
    AtOrdinal(s, holders, 0);
    match e
    case StartSucceeded(task) =>
      if s.closed {
        OwnedOtherwise(s, e);
      } else {
        OwnedAtStart(s, holders, task);
      }
    case Reserve =>
      var idle := FirstIdle(s.slots, 0);
      if !s.closed && idle.Some? {
        OwnedAtReserve(s, idle.value);
      }
    case RestartSucceeded(r) =>
      OwnedAtRestart(s, holders, r);
    case _ =>
      OwnedOtherwise(s, e);
  }

  lemma {:induction false} RunOwned(s: State, holders: seq<Holder>, events: seq<Event>)
    requires Inv(s, holders) && OwnedAreHeld(s) && Possible(s, events)
    ensures OwnedAreHeld(After(s, events))
    decreases |events|
  {
    hide OwnedAreHeld, Inv, Enabled, Next;
    if events != [] {
      StepOwned(s, holders, events[0]);
      var h := StepInv(s, holders, events[0]);
      RunOwned(Next(s, events[0]), h, events[1..]);
    }
  }

  /** In every reachable state the pool owns only processes that are idle or reserved. */
  lemma OwnsOnlyHeld(concurrency: nat, events: seq<Event>, p: Pid)
    requires Possible(Initial(concurrency), events)
    ensures var s := After(Initial(concurrency), events);
            p in s.owned ==> (exists i :: 0 <= i < |s.slots| && s.slots[i] == Some(p))
                             || exists r :: r in s.reservations && s.reservations[r].current == p
  {
    hide Inv, Possible, After;
    InitialInv(concurrency);
    RunOwned(Initial(concurrency), seq(concurrency, i requires 0 <= i < concurrency => AtPreparation(i)), events);
  }

  function Ordinals(n: nat): set<nat> { if n == 0 then {} else Ordinals(n - 1) + {n - 1} }

  function IdleOrdinals(s: State): set<nat> { set i | 0 <= i < |s.slots| && s.slots[i].Some? }

  function PreparedOrdinals(s: State): set<nat> { set t | t in s.preparing :: s.preparing[t].index }

  function ReservedOrdinals(s: State): set<nat> { set r | r in s.reservations :: s.reservations[r].index }

  /** In an open pool every ordinal is idle, being prepared or reserved, and only one of
      these, once: the three counts always add up to the concurrency. */
  lemma OrdinalsArePartitioned(concurrency: nat, events: seq<Event>)
    requires Possible(Initial(concurrency), events)
    ensures var s := After(Initial(concurrency), events);
            s.serving && !s.closed ==>
              && IdleOrdinals(s) + PreparedOrdinals(s) + ReservedOrdinals(s) == Ordinals(concurrency)
              && IdleOrdinals(s) !! PreparedOrdinals(s) !! ReservedOrdinals(s)
              && (forall t, u :: t in s.preparing && u in s.preparing && t != u ==> s.preparing[t].index != s.preparing[u].index)
              && (forall r, q :: r in s.reservations && q in s.reservations && r != q ==> s.reservations[r].index != s.reservations[q].index)
              && |IdleOrdinals(s)| + |s.preparing| + |s.reservations| == concurrency
  {
    var h := ReachableInv(concurrency, events);
    var s := After(Initial(concurrency), events);
    SlotsKeepLength(Initial(concurrency), events);
    if s.serving && !s.closed {
      PartitionByHolder(s, h);
      HoldersDiffer(s, h);
      HoldersCount(s);
      OrdinalCount(concurrency);
    }
  }

  lemma PartitionByHolder(s: State, h: seq<Holder>)
    requires Inv(s, h) && s.serving && !s.closed
    ensures IdleOrdinals(s) + PreparedOrdinals(s) + ReservedOrdinals(s) == Ordinals(|s.slots|)
    ensures IdleOrdinals(s) !! PreparedOrdinals(s) !! ReservedOrdinals(s)
  {
    hide InvAt, Global, IdleOrdinals, PreparedOrdinals, ReservedOrdinals;
    OrdinalCount(|s.slots|);
    forall i: nat
      ensures i in IdleOrdinals(s) <==> i < |s.slots| && h[i] == AtSlot
      ensures i in PreparedOrdinals(s) <==> i < |s.slots| && h[i].AtPreparation?
      ensures i in ReservedOrdinals(s) <==> i < |s.slots| && h[i].AtReservation?
      ensures i < |s.slots| ==> h[i] == AtSlot || h[i].AtPreparation? || h[i].AtReservation?
    {
      OrdinalByHolder(s, h, i);
    }
  }

  lemma OrdinalByHolder(s: State, h: seq<Holder>, i: nat)
    requires Inv(s, h) && s.serving && !s.closed
    ensures i in IdleOrdinals(s) <==> i < |s.slots| && h[i] == AtSlot
    ensures i in PreparedOrdinals(s) <==> i < |s.slots| && h[i].AtPreparation?
    ensures i in ReservedOrdinals(s) <==> i < |s.slots| && h[i].AtReservation?
    ensures i < |s.slots| ==> h[i] == AtSlot || h[i].AtPreparation? || h[i].AtReservation?
  {
    if i < |s.slots| {
      assert InvAt(s, i, h[i]);
    }
  }

  lemma HoldersDiffer(s: State, h: seq<Holder>)
    requires Inv(s, h)
    ensures forall t, u :: t in s.preparing && u in s.preparing && t != u ==> s.preparing[t].index != s.preparing[u].index
    ensures forall r, q :: r in s.reservations && q in s.reservations && r != q ==> s.reservations[r].index != s.reservations[q].index
  {
    forall t, u | t in s.preparing && u in s.preparing && t != u
      ensures s.preparing[t].index != s.preparing[u].index
    {
      assert InvAt(s, s.preparing[t].index, h[s.preparing[t].index]);
    }
    forall r, q | r in s.reservations && q in s.reservations && r != q
      ensures s.reservations[r].index != s.reservations[q].index
    {
      assert InvAt(s, s.reservations[r].index, h[s.reservations[r].index]);
    }
  }

  lemma {:induction false} SlotsKeepLength(s: State, events: seq<Event>)
    requires Possible(s, events)
    ensures |After(s, events).slots| == |s.slots|
    decreases |events|
  {
    if events != [] {
      SlotsKeepLength(Next(s, events[0]), events[1..]);
    }
  }

  predicate Injective(m: map<nat, nat>) { forall t, u :: t in m && u in m && t != u ==> m[t] != m[u] }

  lemma {:induction false} InjectiveCount(m: map<nat, nat>)
    requires Injective(m)
    ensures |m.Values| == |m|
    decreases |m|
  {
    if m != map[] {
      var t :| t in m;
      var fewer := m - {t};
      assert m == fewer[t := m[t]];
      assert m[t] !in fewer.Values;
      assert m.Keys == fewer.Keys + {t};
      assert m.Values == fewer.Values + {m[t]};
      InjectiveCount(fewer);
    }
  }

  lemma HoldersCount(s: State)
    requires forall t, u :: t in s.preparing && u in s.preparing && t != u ==> s.preparing[t].index != s.preparing[u].index
    requires forall r, q :: r in s.reservations && q in s.reservations && r != q ==> s.reservations[r].index != s.reservations[q].index
    ensures |PreparedOrdinals(s)| == |s.preparing| && |ReservedOrdinals(s)| == |s.reservations|
  {
    var prepared, reserved := map t | t in s.preparing :: s.preparing[t].index, map r | r in s.reservations :: s.reservations[r].index;
    InjectiveCount(prepared);
    InjectiveCount(reserved);
    assert prepared.Keys == s.preparing.Keys && reserved.Keys == s.reservations.Keys;
    assert prepared.Values == PreparedOrdinals(s);
    assert reserved.Values == ReservedOrdinals(s);
  }

  lemma {:induction false} OrdinalCount(n: nat)
    ensures |Ordinals(n)| == n && forall i: nat :: i in Ordinals(n) <==> i < n
  {
    if n > 0 {
      OrdinalCount(n - 1);
    }
  }

  // ----- Closing -----

  /** The Python processes that were being started when close was called. */
  function Strays(s: State): set<Pid> {
    set r | r in s.reservations && s.reservations[r].stage.Restarting? :: s.reservations[r].stage.pid
  }

  /** What close still has to find among the live processes. */
  ghost predicate Draining(s: State, holders: seq<Holder>, strays: set<Pid>) {
    match s.closing
    case NotClosing => false
    case AwaitOwned(owned) =>
      forall p :: Alive(s, p) ==> p in owned || p in strays || AwaitedTask(s, holders, p)
    case AwaitPreparing(tasks) =>
      s.preparing.Keys <= tasks && forall p :: Alive(s, p) ==> p in strays || AwaitedTask(s, holders, p)
    case Finished =>
      forall p :: Alive(s, p) ==> p in strays
  }

  predicate AwaitedTask(s: State, holders: seq<Holder>, p: Pid) {
    p in s.processes && s.processes[p].ordinal < |holders| && holders[s.processes[p].ordinal].AtPreparation?
  }

  /** A closed pool starts nothing, and nobody takes over an ordinal. */
  lemma ClosedStep(s: State, e: Event)
    requires Enabled(s, e) && s.closed
    ensures var n := Next(s, e);
            && n.closed && n.slots == s.slots && n.preparing.Keys <= s.preparing.Keys
            && (forall r :: r in n.reservations ==> r in s.reservations && n.reservations[r].index == s.reservations[r].index)
            && (forall p :: Alive(n, p) ==> Alive(s, p) && n.processes[p].ordinal == s.processes[p].ordinal)
            && (!e.OwnedStopped? && !e.PreparingSettled? ==> n.closing == s.closing)
  {}

  lemma StillAwaited(s: State, holders: seq<Holder>, e: Event, h: seq<Holder>, p: Pid)
    requires Inv(s, holders) && Enabled(s, e) && s.closed && Inv(Next(s, e), h)
    requires Alive(Next(s, e), p) && Alive(s, p) && AwaitedTask(s, holders, p)
    ensures AwaitedTask(Next(s, e), h, p)
  {
    hide Inv, Next;
    ClosedStep(s, e);
    var i := s.processes[p].ordinal;
    AtOrdinal(s, holders, i);
    AtOrdinal(Next(s, e), h, i);
  }

  /** While closing, whatever is alive was owned, is still awaited, or is a stray. */
  lemma StepDraining(s: State, holders: seq<Holder>, e: Event, strays: set<Pid>) returns (h: seq<Holder>)
    requires Inv(s, holders) && Enabled(s, e) && Draining(s, holders, strays)
    ensures Inv(Next(s, e), h) && Draining(Next(s, e), h, strays)
  {
    hide Inv;
    AtOrdinal(s, holders, 0);
    h := StepInv(s, holders, e);
    ClosedStep(s, e);
    forall p | Alive(Next(s, e), p) && Alive(s, p) && AwaitedTask(s, holders, p)
      ensures AwaitedTask(Next(s, e), h, p)
    {
      StillAwaited(s, holders, e, h, p);
    }
    if e.PreparingSettled? {
      forall p | Alive(s, p)
        ensures p in strays
      {
        NothingAwaited(s, holders, p);
      }
    }
  }

  lemma NothingAwaited(s: State, holders: seq<Holder>, p: Pid)
    requires Inv(s, holders) && Alive(s, p) && s.preparing.Keys == {}
    ensures !AwaitedTask(s, holders, p)
  {
    AtOrdinal(s, holders, s.processes[p].ordinal);
  }

  lemma CloseDrains(s: State, holders: seq<Holder>)
    requires Inv(s, holders) && !s.closed
    ensures Draining(s.(closed := true, closing := AwaitOwned(s.owned)), holders, Strays(s))
  {
    hide Inv;
    forall p | Alive(s, p)
      ensures p in s.owned || p in Strays(s) || AwaitedTask(s, holders, p)
    {
      AtOrdinal(s, holders, s.processes[p].ordinal);
      AtOrdinal(s, holders, 0);
    }
  }

  lemma {:induction false} RunDraining(s: State, holders: seq<Holder>, events: seq<Event>, strays: set<Pid>) returns (h: seq<Holder>)
    requires Inv(s, holders) && Possible(s, events) && Draining(s, holders, strays)
    ensures Inv(After(s, events), h) && Draining(After(s, events), h, strays)
    decreases |events|
  {
    hide Inv, Draining;
    h := holders;
    if events != [] {
      h := StepDraining(s, holders, events[0], strays);
      h := RunDraining(Next(s, events[0]), h, events[1..], strays);
    }
  }

  /** When close() has returned, nothing is alive but Python processes whose start was still
      awaited by a run when close was called: without one, nothing at all. */
  lemma CloseLeavesOnlyStrays(concurrency: nat, before: seq<Event>, after: seq<Event>)
    requires Possible(Initial(concurrency), before)
    requires var s := After(Initial(concurrency), before); Enabled(s, Close) && Possible(Next(s, Close), after)
    ensures var s := After(Initial(concurrency), before);
            var end := After(Next(s, Close), after);
            end.closing.Finished? ==> forall p :: Alive(end, p) ==> p in Strays(s)
  {
    var h := ReachableInv(concurrency, before);
    var s := After(Initial(concurrency), before);
    CloseDrains(s, h);
    var h' := StepInv(s, h, Close);
    ProgressOnly(s, h, Next(s, Close));
    h' := RunDraining(Next(s, Close), h, after, Strays(s));
  }

  /** Nothing that is dead comes back while the pool closes. */
  lemma {:induction false} DeadStayDead(s: State, events: seq<Event>, p: Pid)
    requires s.closed && Possible(s, events) && Alive(After(s, events), p)
    ensures Alive(s, p)
    decreases |events|
  {
    hide Enabled, Next;
    if events != [] {
      ClosedStep(s, events[0]);
      DeadStayDead(Next(s, events[0]), events[1..], p);
    }
  }

  lemma {:induction false} AfterBoth(s: State, a: seq<Event>, b: seq<Event>)
    requires Possible(s, a) && Possible(After(s, a), b)
    ensures Possible(s, a + b) && After(s, a + b) == After(After(s, a), b)
    decreases |a|
  {
    hide Enabled, Next;
    if a == [] {
      assert a + b == b;
    } else {
      AfterBoth(Next(s, a[0]), a[1..], b);
      assert (a + b)[1..] == a[1..] + b;
    }
  }

  /** The victims can all die while p lives on. */
  lemma {:induction false} OthersCanDie(s: State, victims: set<Pid>, p: Pid) returns (events: seq<Event>)
    requires Alive(s, p) && p !in victims
    ensures Possible(s, events)
    ensures var n := After(s, events);
            && n == s.(processes := n.processes) && Alive(n, p)
            && (forall q :: q in victims ==> !Alive(n, q)) && forall q :: Alive(n, q) ==> Alive(s, q)
    decreases |victims|
  {
    events := [];
    if victims != {} {
      var q :| q in victims;
      if Alive(s, q) {
        var n := Next(s, Died(q));
        var later := OthersCanDie(n, victims - {q}, p);
        events := [Died(q)] + later;
        assert events[1..] == later;
      } else {
        events := OthersCanDie(s, victims - {q}, p);
      }
    }
  }

  /** Every preparation of a closed pool can settle once its process is gone. */
  lemma {:induction false} PreparationsCanSettle(s: State, p: Pid) returns (events: seq<Event>)
    requires s.closed && Alive(s, p)
    requires forall t :: t in s.preparing ==>
               PrepareAt(s, t) && (s.preparing[t].at.Delaying? || !Alive(s, s.preparing[t].at.pid))
    ensures Possible(s, events) && After(s, events) == s.(preparing := map[])
    decreases |s.preparing|
  {
    events := [];
    if s.preparing != map[] {
      var t :| t in s.preparing;
      var e := match s.preparing[t].at
               case Starting(_) => StartFailed(t)
               case Delaying => DelayEnded(t)
               case Stopping(_) => StopEnded(t);
      var n := Next(s, e);
      assert n == Settled(s, t) && |n.preparing| < |s.preparing| by {
        assert n.preparing.Keys == s.preparing.Keys - {t};
      }
      var later := PreparationsCanSettle(n, p);
      events := [e] + later;
      assert events[1..] == later;
    } else {
      assert s == s.(preparing := map[]);
    }
  }

  lemma StrayIsApart(s: State, holders: seq<Holder>, r: nat)
    requires Inv(s, holders) && r in s.reservations && s.reservations[r].stage.Restarting?
    ensures s.reservations[r].stage.pid !in s.owned
    ensures forall t :: t in s.preparing ==> PrepareAt(s, t) && PidOf(s.preparing[t].at) != Some(s.reservations[r].stage.pid)
  {
    hide Inv;
    var i := s.reservations[r].index;
    AtOrdinal(s, holders, i);
    forall t | t in s.preparing
      ensures PrepareAt(s, t) && PidOf(s.preparing[t].at) != Some(s.reservations[r].stage.pid)
    {
      AtOrdinal(s, holders, s.preparing[t].index);
    }
  }

  ghost function PidsOf(s: State): set<Pid> {
    set t | t in s.preparing && !s.preparing[t].at.Delaying? :: s.preparing[t].at.pid
  }

  /** A live stray can outlive close: everything that close waits for may go first. */
  lemma StrayCanOutlive(s: State, holders: seq<Holder>, r: nat) returns (events: seq<Event>)
    requires Inv(s, holders) && Enabled(s, Close)
    requires r in s.reservations && s.reservations[r].stage.Restarting? && Alive(s, s.reservations[r].stage.pid)
    ensures Possible(Next(s, Close), events)
    ensures After(Next(s, Close), events).closing.Finished? && Alive(After(Next(s, Close), events), s.reservations[r].stage.pid)
  {
    hide Inv, Possible, After;
    var p := s.reservations[r].stage.pid;
    StrayIsApart(s, holders, r);
    var c := Next(s, Close);
    var dying := OthersCanDie(c, s.owned + PidsOf(s), p);
    var d := After(c, dying);
    var o := Next(d, OwnedStopped);
    forall t | t in o.preparing
      ensures o.preparing[t].at.Delaying? || !Alive(o, o.preparing[t].at.pid)
    {
      assert o.preparing[t].at.Delaying? || o.preparing[t].at.pid in PidsOf(s);
    }
    var settling := PreparationsCanSettle(o, p);
    var f := After(o, settling);
    OneMoreEvent(c, dying, OwnedStopped);
    AfterBoth(c, dying + [OwnedStopped], settling);
    OneMoreEvent(c, dying + [OwnedStopped] + settling, PreparingSettled);
    events := dying + [OwnedStopped] + settling + [PreparingSettled];
  }

  /** Whatever happens from this call of close on, nothing is alive when it returns. */
  ghost predicate CloseIsClean(s: State)
    requires Enabled(s, Close)
  {
    forall after :: Possible(Next(s, Close), after) && After(Next(s, Close), after).closing.Finished? ==>
      forall p :: !Alive(After(Next(s, Close), after), p)
  }

  /** That holds in a reachable state exactly when no run is awaiting a live Python start. */
  lemma CloseIsCleanExactlyWhen(concurrency: nat, before: seq<Event>)
    requires Possible(Initial(concurrency), before) && Enabled(After(Initial(concurrency), before), Close)
    ensures var s := After(Initial(concurrency), before);
            CloseIsClean(s) <==> forall p :: p in Strays(s) ==> !Alive(s, p)
  {
    hide Enabled, Next, Possible, After;
    var s := After(Initial(concurrency), before);
    if forall p :: p in Strays(s) ==> !Alive(s, p) {
      forall after | Possible(Next(s, Close), after) && After(Next(s, Close), after).closing.Finished?
        ensures forall p :: !Alive(After(Next(s, Close), after), p)
      {
        CloseLeavesOnlyStrays(concurrency, before, after);
        forall p
          ensures !Alive(After(Next(s, Close), after), p)
        {
          if Alive(After(Next(s, Close), after), p) {
            CloseMeansClosed(s);
            DeadStayDead(Next(s, Close), after, p);
          }
        }
      }
    }
    if p :| p in Strays(s) && Alive(s, p) {
      var r :| r in s.reservations && s.reservations[r].stage.Restarting? && s.reservations[r].stage.pid == p;
      var h := ReachableInv(concurrency, before);
      var after := StrayCanOutlive(s, h, r);
    }
  }

  lemma CloseMeansClosed(s: State)
    requires Enabled(s, Close)
    ensures Next(s, Close).closed && Next(s, Close).processes == s.processes
  {
  }

  /** A run that has stopped its JavaScript process and is starting Python. */
  function SwapEvents(): seq<Event> {
    [StartSucceeded(0), PoolOpened, Reserve, Run(1, true), Died(0), SwapStopped(1, false)]
  }

  lemma {:induction false} OneMoreEvent(s: State, events: seq<Event>, e: Event)
    requires Possible(s, events) && Enabled(After(s, events), e)
    ensures Possible(s, events + [e]) && After(s, events + [e]) == Next(After(s, events), e)
    decreases |events|
  {
    hide Enabled, Next;
    if events == [] {
      assert ([] + [e])[1..] == [];
    } else {
      OneMoreEvent(Next(s, events[0]), events[1..], e);
      assert (events + [e])[1..] == events[1..] + [e];
    }
  }

  lemma ReservedAtOnce() returns (s: State)
    ensures Possible(Initial(1), SwapEvents()[..3]) && s == After(Initial(1), SwapEvents()[..3])
    ensures s == Initial(1).(
                   slots := [None], preparing := map[], owned := {0}, serving := true, watched := {0},
                   reservations := map[1 := Reservation(0, 0, false, false, Held, JavaScript)], next := 2)
  {
    var s1 := Next(Initial(1), StartSucceeded(0));
    assert s1.slots == [Some(0)] && s1.preparing == map[];
    OneMoreEvent(Initial(1), [], StartSucceeded(0));
    OneMoreEvent(Initial(1), [StartSucceeded(0)], PoolOpened);
    OneMoreEvent(Initial(1), [StartSucceeded(0), PoolOpened], Reserve);
    s := Next(Next(s1, PoolOpened), Reserve);
    assert SwapEvents()[..3] == [StartSucceeded(0), PoolOpened] + [Reserve];
  }

  lemma SwapInProgress() returns (s: State)
    ensures Possible(Initial(1), SwapEvents()) && s == After(Initial(1), SwapEvents())
    ensures s.serving && !s.closed && s.owned == {} && s.preparing == map[] && s.slots == [None] && s.next == 3
    ensures s.processes == map[0 := Process(0, false, JavaScript), 2 := Process(0, true, Python)]
    ensures s.reservations == map[1 := Reservation(0, 0, true, false, Restarting(2), Python)]
  {
    hide Possible, After;
    var s3 := ReservedAtOnce();
    var first := SwapEvents()[..3];
    OneMoreEvent(Initial(1), first, Run(1, true));
    OneMoreEvent(Initial(1), first + [Run(1, true)], Died(0));
    OneMoreEvent(Initial(1), first + [Run(1, true)] + [Died(0)], SwapStopped(1, false));
    s := Next(Next(Next(s3, Run(1, true)), Died(0)), SwapStopped(1, false));
    assert SwapEvents() == first + [Run(1, true)] + [Died(0)] + [SwapStopped(1, false)];
  }

  /** The condition is needed: closing during a swap returns while the new process lives. */
  lemma CloseCanMissARestart()
    ensures Possible(Initial(1), SwapEvents())
    ensures var s := After(Initial(1), SwapEvents());
            var after := [OwnedStopped, PreparingSettled];
            && Enabled(s, Close) && Possible(Next(s, Close), after)
            && var end := After(Next(s, Close), after);
               end.closing.Finished? && Alive(end, 2)
  {
    var s := SwapInProgress();
    var c := Next(s, Close);
    var d := Next(c, OwnedStopped);
    var end := Next(d, PreparingSettled);
    var after := [OwnedStopped, PreparingSettled];
    assert after[1..] == [PreparingSettled] && after[1..][1..] == [];
    assert After(d, [PreparingSettled]) == end;
  }

  /** And so is the server's order: a release that did not wait for the run would start a
      second process under the same uid. */
  lemma ReleaseMustFollowRun()
    ensures Possible(Initial(1), SwapEvents())
    ensures var s := After(Initial(1), SwapEvents());
            && 1 in s.reservations && !Callable(s, 1) && 1 in ReleaseNext(s, 1).reservations
            && var end := ReleaseStoppedNext(ReleaseNext(s, 1), 1);
               exists p, q :: p != q && Alive(end, p) && Alive(end, q) && end.processes[p].ordinal == end.processes[q].ordinal
  {
    var s := SwapInProgress();
    var end := ReleaseStoppedNext(ReleaseNext(s, 1), 1);
    assert Alive(end, 2) && Alive(end, 3);
  }

  // ----- What a caller of one step may rely on -----

  ghost predicate OneLiveEach(ps: Processes) {
    forall p, q :: Lives(ps, p) && Lives(ps, q) && ps[p].ordinal == ps[q].ordinal ==> p == q
  }

  /** One live process per ordinal, no process run twice or with a task of another language, and no
      ordinal lost in an open pool. */
  ghost predicate Safe(s: State) {
    && OneLiveEach(s.processes)
    && (forall j, k :: 0 <= j < k < |s.runs| ==> s.runs[j] != s.runs[k])
    && (forall p :: p in s.runs ==> p in s.tasks && p in s.processes && s.processes[p].language == s.tasks[p])
    && (s.serving && !s.closed ==> |IdleOrdinals(s)| + |s.preparing| + |s.reservations| == |s.slots|)
  }

  /** The invariant, and while closing what is left to wait for. */
  ghost predicate Kept(s: State, holders: seq<Holder>, strays: set<Pid>) {
    Inv(s, holders) && if s.closing.NotClosing? then !s.closed else Draining(s, holders, strays)
  }

  lemma InvCounts(s: State, holders: seq<Holder>)
    requires Inv(s, holders) && s.serving && !s.closed
    ensures |IdleOrdinals(s)| + |s.preparing| + |s.reservations| == |s.slots|
  {
    hide Inv, IdleOrdinals, PreparedOrdinals, ReservedOrdinals;
    PartitionByHolder(s, holders);
    HoldersDiffer(s, holders);
    HoldersCount(s);
    OrdinalCount(|s.slots|);
    PartitionCount(IdleOrdinals(s), PreparedOrdinals(s), ReservedOrdinals(s));
  }

  lemma InvIsSafe(s: State, holders: seq<Holder>)
    requires Inv(s, holders)
    ensures Safe(s)
  {
    hide Inv, IdleOrdinals;
    AtOrdinal(s, holders, 0);
    forall p, q | Alive(s, p) && Alive(s, q) && s.processes[p].ordinal == s.processes[q].ordinal
      ensures p == q
    {
      AtOrdinal(s, holders, s.processes[p].ordinal);
    }
    if s.serving && !s.closed {
      InvCounts(s, holders);
    }
  }

  lemma PartitionCount(a: set<nat>, b: set<nat>, c: set<nat>)
    requires a !! b !! c
    ensures |a + b + c| == |a| + |b| + |c|
  {
  }

  lemma OpenStep(s: State, e: Event)
    requires Enabled(s, e) && !s.closed && s.closing.NotClosing? && !e.Close?
    ensures !Next(s, e).closed && Next(s, e).closing.NotClosing?
  {
  }

  lemma CloseKept(s: State, holders: seq<Holder>)
    requires Inv(s, holders) && Enabled(s, Close)
    ensures Inv(Next(s, Close), holders) && Draining(Next(s, Close), holders, Strays(s))
    ensures !Next(s, Close).closing.NotClosing?
  {
    hide Inv, Draining;
    AtOrdinal(s, holders, 0);
    CloseDrains(s, holders);
    ProgressOnly(s, holders, Next(s, Close));
  }

  lemma DrainingIsClosing(s: State, holders: seq<Holder>, strays: set<Pid>)
    requires Draining(s, holders, strays)
    ensures !s.closing.NotClosing?
  {
  }

  lemma StepKept(s: State, holders: seq<Holder>, strays: set<Pid>, e: Event) returns (h: seq<Holder>, left: set<Pid>)
    requires Kept(s, holders, strays) && Enabled(s, e)
    ensures Kept(Next(s, e), h, left) && Safe(Next(s, e))
    ensures left == if e.Close? then Strays(s) else strays
  {
    hide Inv, Safe, Draining, Next;
    left := if e.Close? then Strays(s) else strays;
    AtOrdinal(s, holders, 0);
    if e.Close? {
      h := holders;
      CloseKept(s, holders);
    } else if s.closing.NotClosing? {
      h := StepInv(s, holders, e);
      OpenStep(s, e);
    } else {
      h := StepDraining(s, holders, e, strays);
      DrainingIsClosing(Next(s, e), h, strays);
    }
    InvIsSafe(Next(s, e), h);
  }

  ghost predicate NoneLives(ps: Processes, i: nat) { forall p :: Lives(ps, p) ==> ps[p].ordinal != i }

  /** Of this ordinal, the process lives and no other does. */
  ghost predicate OnlyLives(ps: Processes, i: nat, p: Pid) {
    Lives(ps, p) && ps[p].ordinal == i && forall q :: Lives(ps, q) && ps[q].ordinal == i ==> q == p
  }

  ghost predicate AtMostLives(ps: Processes, i: nat, p: Pid) { forall q :: Lives(ps, q) && ps[q].ordinal == i ==> q == p }

  lemma OfPreparation(s: State, holders: seq<Holder>, t: nat)
    requires Inv(s, holders) && PrepareAt(s, t)
    ensures if s.preparing[t].at.Delaying? then NoneLives(s.processes, s.preparing[t].index)
            else AtMostLives(s.processes, s.preparing[t].index, s.preparing[t].at.pid)
                 && Stands(s.processes, s.preparing[t].at.pid, s.preparing[t].index)
  {
    hide Inv;
    AtOrdinal(s, holders, s.preparing[t].index);
  }

  /** A reservation has its current process or, once that is gone, the one started in its place. */
  lemma OfReservation(s: State, holders: seq<Holder>, r: nat)
    requires Inv(s, holders) && r in s.reservations
    ensures var v := s.reservations[r];
            && v.index < |s.slots|
            && AtMostLives(s.processes, v.index, if v.stage.Restarting? then v.stage.pid else v.current)
            && (v.stage.Restarting? ==>
                  v.stage.pid !in s.runs && v.task == Python
                  && v.stage.pid in s.processes && s.processes[v.stage.pid].language == Python)
            && (!v.stage.Held? ==> v.used || v.released)
  {
    hide Inv;
    AtOrdinal(s, holders, 0);
    AtOrdinal(s, holders, s.reservations[r].index);
  }

  lemma OfSlot(s: State, holders: seq<Holder>, i: nat)
    requires Inv(s, holders) && i < |s.slots| && s.slots[i].Some?
    ensures AtMostLives(s.processes, i, s.slots[i].value)
  {
    hide Inv;
    AtOrdinal(s, holders, i);
  }

  /** A new process of an ordinal where none lived is the only one, under a number never used before. */
  lemma SpawnedAlone(s: State, holders: seq<Holder>, i: nat, language: Language)
    requires Inv(s, holders) && forall q :: Alive(s, q) ==> s.processes[q].ordinal != i
    ensures s.next !in s.processes && OnlyLives(Spawn(s, i, language), i, s.next)
  {
    hide Inv;
    AtOrdinal(s, holders, 0);
  }

  lemma AfterStartSucceeded(s: State, holders: seq<Holder>, task: nat)
    requires Inv(s, holders) && Enabled(s, StartSucceeded(task))
    ensures var i, n := s.preparing[task].index, Next(s, StartSucceeded(task));
            && AtMostLives(n.processes, i, s.preparing[task].at.pid)
            && (!s.closed ==> i in IdleOrdinals(n) && i !in PreparedOrdinals(n))
  {
    OfPreparation(s, holders, task);
    HoldersDiffer(s, holders);
    hide Inv;
  }

  lemma AfterStartFailed(s: State, holders: seq<Holder>, task: nat)
    requires Inv(s, holders) && Enabled(s, StartFailed(task))
    ensures var i, n := s.preparing[task].index, Next(s, StartFailed(task));
            && NoneLives(n.processes, i)
            && (!s.closed && !s.preparing[task].initial ==> i in PreparedOrdinals(n))
  {
    OfPreparation(s, holders, task);
    hide Inv;
    var n := Next(s, StartFailed(task));
    assert !s.closed && !s.preparing[task].initial ==> task in n.preparing && n.preparing[task].index == s.preparing[task].index;
  }

  lemma AfterDelayEnded(s: State, holders: seq<Holder>, task: nat)
    requires Inv(s, holders) && Enabled(s, DelayEnded(task))
    ensures var i, n := s.preparing[task].index, Next(s, DelayEnded(task));
            if s.closed then NoneLives(n.processes, i) else s.next !in s.processes && OnlyLives(n.processes, i, s.next)
  {
    OfPreparation(s, holders, task);
    SpawnedAlone(s, holders, s.preparing[task].index, JavaScript);
  }

  lemma AfterStopEnded(s: State, holders: seq<Holder>, task: nat)
    requires Inv(s, holders) && Enabled(s, StopEnded(task))
    ensures NoneLives(Next(s, StopEnded(task)).processes, s.preparing[task].index)
  {
    OfPreparation(s, holders, task);
  }

  lemma AfterDied(s: State, holders: seq<Holder>, p: Pid)
    requires Inv(s, holders) && Enabled(s, Died(p))
    ensures NoneLives(Next(s, Died(p)).processes, s.processes[p].ordinal)
  {
    hide Inv;
    AtOrdinal(s, holders, 0);
    AtOrdinal(s, holders, s.processes[p].ordinal);
  }

  lemma AfterExitSeen(s: State, holders: seq<Holder>, p: Pid)
    requires Inv(s, holders) && Enabled(s, ExitSeen(p))
    ensures var i, n := s.processes[p].ordinal, Next(s, ExitSeen(p));
            && (s.slots[i] == Some(p) && !s.closed ==>
                  i in PreparedOrdinals(n) && p !in n.owned && s.next !in s.processes && OnlyLives(n.processes, i, s.next))
            && (s.slots[i] != Some(p) ==> n.slots == s.slots && n.processes == s.processes)
            && p !in n.watched
  {
    var i, n := s.processes[p].ordinal, Next(s, ExitSeen(p));
    if s.slots[i] == Some(p) && !s.closed {
      OfSlot(s, holders, i);
      SpawnedAlone(s, holders, i, JavaScript);
      assert s.next in n.preparing && n.preparing[s.next].index == i;
    }
  }

  lemma AfterSwapStopped(s: State, holders: seq<Holder>, r: nat, canceled: bool)
    requires Inv(s, holders) && Enabled(s, SwapStopped(r, canceled))
    ensures var i, n := s.reservations[r].index, Next(s, SwapStopped(r, canceled));
            if s.closed || canceled then NoneLives(n.processes, i)
            else s.next !in s.processes && OnlyLives(n.processes, i, s.next)
  {
    OfReservation(s, holders, r);
    SpawnedAlone(s, holders, s.reservations[r].index, Python);
  }

  lemma AfterRestartSucceeded(s: State, holders: seq<Holder>, r: nat)
    requires Inv(s, holders) && Enabled(s, RestartSucceeded(r))
    ensures var p, n := s.reservations[r].stage.pid, Next(s, RestartSucceeded(r));
            && p in n.processes && p in n.tasks && p !in s.runs && n.runs == s.runs + [p]
            && n.processes[p].language == Python == n.tasks[p]
            && AtMostLives(n.processes, s.reservations[r].index, p)
  {
    OfReservation(s, holders, r);
  }

  lemma AfterRunSettled(s: State, holders: seq<Holder>, r: nat, e: Event)
    requires Inv(s, holders) && Enabled(s, e) && (e == RunEnded(r) || e == RestartFailed(r))
    ensures NoneLives(Next(s, e).processes, s.reservations[r].index)
  {
    OfReservation(s, holders, r);
  }

  lemma AfterReleaseStopped(s: State, holders: seq<Holder>, r: nat)
    requires Inv(s, holders) && Enabled(s, ReleaseStopped(r))
    ensures var i, n := s.reservations[r].index, Next(s, ReleaseStopped(r));
            if s.closed then NoneLives(n.processes, i)
            else i in PreparedOrdinals(n) && s.next !in s.processes && OnlyLives(n.processes, i, s.next)
  {
    OfReservation(s, holders, r);
    SpawnedAlone(s, holders, s.reservations[r].index, JavaScript);
    var n := Next(s, ReleaseStopped(r));
    assert !s.closed ==> s.next in n.preparing && n.preparing[s.next].index == s.reservations[r].index;
  }

  lemma InitialIsSafe(concurrency: nat)
    ensures var h := seq(concurrency, i requires 0 <= i < concurrency => AtPreparation(i));
            Kept(Initial(concurrency), h, {}) && Safe(Initial(concurrency))
    ensures PreparedOrdinals(Initial(concurrency)) == Ordinals(concurrency)
  {
    var s := Initial(concurrency);
    InitialInv(concurrency);
    hide Inv;
    InvIsSafe(s, seq(concurrency, i requires 0 <= i < concurrency => AtPreparation(i)));
    OrdinalCount(concurrency);
    forall i: nat | i < concurrency
      ensures i in PreparedOrdinals(s)
    {
      assert i in s.preparing && s.preparing[i].index == i;
    }
  }

  /** A second run, at any moment after the first call, is refused and changes nothing. */
  lemma OverlappingRunIsRefused(concurrency: nat, events: seq<Event>, r: nat, python: bool)
    requires Possible(Initial(concurrency), events)
    ensures var s := After(Initial(concurrency), events);
            r in s.reservations && !s.reservations[r].stage.Held? ==>
              Enabled(s, Run(r, python)) && Next(s, Run(r, python)) == s
  {
    var h := ReachableInv(concurrency, events);
    var s := After(Initial(concurrency), events);
    if r in s.reservations {
      OfReservation(s, h, r);
    }
  }
}
