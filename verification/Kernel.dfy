/** The kernel's scheduling state, changed in place by interrupts and system calls. */
module Kernel {

  import opened Base
  import opened Histories
  import opened Scheduler

  /** The system calls and interrupts that reach the scheduler, as a user process causes them. */
  datatype Cause =
    | Timer(frame: Frame, input: Option<nat>)
    | Yield(frame: Frame)
    | ReadStdin(frame: Frame)
    | WaitFor(frame: Frame, target: nat)
    | Nanosleep(frame: Frame, seconds: int, nanoseconds: int)
    | Exit
    | Execute(loads: bool, entry: Frame)

  predicate Plausible(cause: Cause) {
    match cause
    case Exit => true
    case Execute(_, _) => true
    case _ => UserFrame(cause.frame)
  }

  /** The frame of the idle loop. */
  const IDLE_FRAME := Frame(0, 0x10_0000, [])

  /** Whole ticks that cover a duration; nothing when it does not fit 64 bits. */
  function DurationToTicks(seconds: nat, nanoseconds: nat): (r: Option<nat>)
    ensures r.Some? ==> r.value * NANOSECONDS_PER_TICK >= seconds * NANOSECONDS_PER_SECOND + nanoseconds
    ensures r.Some? && r.value > 0 ==>
              (r.value - 1) * NANOSECONDS_PER_TICK < seconds * NANOSECONDS_PER_SECOND + nanoseconds
    ensures r.None? <==> seconds * NANOSECONDS_PER_SECOND + nanoseconds > 0xFFFF_FFFF_FFFF_FFFF
  {
    var total := seconds * NANOSECONDS_PER_SECOND + nanoseconds;
    if total > 0xFFFF_FFFF_FFFF_FFFF then None
    else Some((total + NANOSECONDS_PER_TICK - 1) / NANOSECONDS_PER_TICK)
  }

  /** Input goes to the blocked processes, in table order. */
  ghost function Deliveries(ps: seq<Process>, input: Option<nat>): History {
    if ps == [] || input.None? then []
    else Deliveries(ps[..|ps| - 1], input) + Delivery(ps[|ps| - 1], input.value)
  }

  ghost function Delivery(q: Process, input: nat): History {
    if q.blocking then [Delivered(q.pid, input)] else []
  }

  /** A valid sleep request that lasts at least a tick, in nanoseconds. */
  ghost function SleepTime(seconds: int, nanoseconds: int): nat {
    if seconds < 0 || nanoseconds < 0 || nanoseconds >= NANOSECONDS_PER_SECOND then 0
    else
      var total := seconds * NANOSECONDS_PER_SECOND + nanoseconds;
      if total > 0xFFFF_FFFF_FFFF_FFFF then 0 else total
  }

  /** What a call of process `pid` records; `newPid` is the next free pid. */
  ghost function CallEvents(cause: Cause, pid: nat, newPid: nat): History {
    match cause
    case Yield(frame) => [Stopped(pid, frame)]
    case ReadStdin(frame) => [Blocked(pid), Stopped(pid, frame)]
    case WaitFor(frame, target) => [Awaits(pid, target), Stopped(pid, frame)]
    case Nanosleep(frame, seconds, nanoseconds) => SleepEvents(pid, frame, SleepTime(seconds, nanoseconds))
    case Exit => [Exited(pid)]
    case Execute(loads, entry) => if loads then [Deployed(newPid, entry)] else []
    case Timer(frame, _) => [Stopped(pid, frame)]
  }

  ghost function SleepEvents(pid: nat, frame: Frame, total: nat): History {
    if total == 0 then [] else [Sleeps(pid, total), Stopped(pid, frame.(rax := 1))]
  }

  /** What a cause records before anyone is dispatched; `running` is in user code. */
  ghost function Opening(cause: Cause, running: Option<nat>, newPid: nat, ps: seq<Process>): History {
    (if cause.Timer? then [Ticked] + Deliveries(ps, cause.input) else [])
    + (if running.Some? then CallEvents(cause, running.value, newPid) else [])
  }

  /** At most one dispatch follows. */
  ghost predicate ThenDispatches(h: History, h': History) {
    h' == h || (|h'| == |h| + 1 && h <= h' && h'[|h|].Dispatched?)
  }

  class Kernel {
    var processes: seq<Process>
    var current: nat
    var pidCounter: nat
    var ticks: nat

    /** Whether the processor is in user code; otherwise it idles in the kernel. */
    var onCpu: bool

    ghost var history: History

    constructor ()
      ensures Valid() && Settled() && history == []
    {
      processes, current, pidCounter, ticks, onCpu, history := [], 0, 0, 0, false, [];
    }

    ghost predicate Valid()
      reads this
    {
      Inv(history, processes, current, pidCounter, ticks, onCpu)
    }

    /** The running process waits for nothing. */
    ghost predicate Settled()
      reads this
    {
      onCpu ==> current < |processes| && Waits(history, processes[current].pid) == Nothing
    }

    method Tick()
      requires Valid() && Settled()
      modifies this`ticks, this`history
      ensures Valid() && Settled() && history == old(history) + [Ticked]
    {
      hide Inv, Waits;
      TickOk(history, processes, current, pidCounter, ticks, onCpu);
      if onCpu {
        Appended(history, Ticked, processes[current].pid);
      }
      ticks := ticks + 1;
      history := history + [Ticked];
    }

    // ------------------------------------------------------------------ dispatching

    /** Saves the frame of an interrupted user process, never that of the idle loop. */
    method SaveCurrent(stack: Frame)
      requires Valid() && (UserFrame(stack) <==> onCpu) && processes != []
      modifies this
      ensures Valid() && !onCpu && old(current) < |old(processes)|
      ensures history == old(history) + if old(onCpu) then [Stopped(old(processes)[old(current)].pid, stack)] else []
      ensures current == old(current) && |processes| == |old(processes)| && pidCounter == old(pidCounter)
                && ticks == old(ticks)
      ensures ReadyIn(processes, ticks) == ReadyIn(old(processes), ticks)
      ensures forall i :: 0 <= i < |processes| ==> processes[i].pid == old(processes)[i].pid
    {
      hide Saved, Waits, Lawful, PidsOk, Ticks, IsReady;
      var q := processes[current];
      assert onCpu ==> ProcessOk(history, q, Runs(onCpu, current, current));
      if !q.preSchedule && stack.rip > LAST_KERNEL_RIP {
        var q' := q.(context := stack);
        ghost var e := Stopped(q.pid, stack);
        Appended(history, e, q.pid);
        UpdateOk(history, processes, current, pidCounter, ticks, onCpu, e, current, q', current, false);
        SameReady(processes, current, stack, ticks);
        processes := processes[current := q'];
        history := history + [e];
      } else {
        assert history + [] == history;
      }
      onCpu := false;
    }

    /** The history with the running process stopped by an interrupt, if there are both. */
    ghost function StoppedBy(stack: Option<Frame>): History
      reads this
    {
      if onCpu && stack.Some? && current < |processes| then history + [Stopped(processes[current].pid, stack.value)]
      else history
    }

    /** The first ready index after the current one, going around. */
    method FindReady() returns (r: Option<nat>)
      requires Valid() && processes != []
      ensures r.Some? ==> r.value < |processes| && IsReady(processes, ticks, processes[r.value])
      ensures r.Some? ==> Turn(|processes|, ReadyIn(processes, ticks), current, r.value)
      ensures r.None? <==> ReadyIn(processes, ticks) == {}
    {
      hide Inv, IsReady, IsNext, Around;
      CurrentInTable(history, processes, current, pidCounter, ticks, onCpu);
      var n := |processes|;
      var index := current;
      var passes := 0;
      AroundNone(current, n);
      while passes < n
        invariant 0 <= passes <= n && index == Around(current, passes, n) && index < n
        invariant forall e: nat :: 1 <= e <= passes ==> Around(current, e, n) !in ReadyIn(processes, ticks)
      {
        AroundNext(current, passes, n);
        index := if index + 1 >= n then 0 else index + 1;
        if IsReady(processes, ticks, processes[index]) {
          assert index in ReadyIn(processes, ticks);
          FoundNext(n, ReadyIn(processes, ticks), current, passes + 1, index);
          return Some(index);
        }
        passes := passes + 1;
      }
      NoneReady(n, ReadyIn(processes, ticks), current);
      return None;
    }

    /**
      Dispatches the first ready process after the current one, going around;
      nothing exactly when none is ready, and then the index stays.
     */
    method NextProcess(stack: Option<Frame>) returns (r: Option<Process>)
      requires Valid() && (stack.Some? ==> (UserFrame(stack.value) <==> onCpu)) && (stack.None? ==> !onCpu)
      modifies this
      ensures Valid() && Settled() && (old(onCpu) ==> old(current) < |old(processes)|)
      ensures ThenDispatches(old(StoppedBy(stack)), history)
      ensures onCpu <==> r.Some?
      ensures r.Some? ==> |processes| == |old(processes)| && current < |processes| && processes[current] == r.value
      ensures r.Some? ==> |history| > 0 && history[|history| - 1] == Dispatched(r.value.pid, r.value.context)
      ensures r.Some? ==> Turn(|processes|, ReadyIn(old(processes), old(ticks)), old(current), current)
      ensures r.None? <==> ReadyIn(old(processes), old(ticks)) == {}
      ensures r.None? ==> current == old(current) && ReadyIn(processes, ticks) == {}
      ensures r.None? ==> history == old(StoppedBy(stack)) && Idle(history)
      ensures r.Some? ==> Turn(|processes|, MayRunIn(old(StoppedBy(stack)), old(processes)), old(current), current)
      ensures r.Some? ==> Permitted(old(StoppedBy(stack)), r.value.pid, r.value.context)
      ensures |processes| == |old(processes)| && pidCounter == old(pidCounter) && ticks == old(ticks)
      ensures ReadyIn(old(processes), ticks) <= ReadyIn(processes, ticks)
      ensures forall i :: 0 <= i < |processes| ==> processes[i].pid == old(processes)[i].pid
    {
      hide Inv, IsReady, IsNext, Around, Turn, Waits;
      CurrentInTable(history, processes, current, pidCounter, ticks, onCpu);
      ghost var ps0 := processes;
      assert history + [] == history;
      if |processes| == 0 {
        ReadyIsMayRun(history, processes, current, pidCounter, ticks);
        return None;
      }
      if stack.Some? {
        SaveCurrent(stack.value);
      }
      ReadyIsMayRun(history, processes, current, pidCounter, ticks);
      SameMayRun(history, ps0, processes);
      var next := FindReady();
      if next.None? {
        return None;
      }
      ReadyIsPermitted(history, processes, current, pidCounter, ticks, false, next.value);
      Dispatch(next.value);
      return Some(processes[current]);
    }

    method Dispatch(index: nat)
      requires Valid() && !onCpu && index < |processes| && IsReady(processes, ticks, processes[index])
      modifies this
      ensures Valid() && Settled() && onCpu && current == index && |processes| == |old(processes)|
      ensures pidCounter == old(pidCounter) && ticks == old(ticks)
      ensures ReadyIn(old(processes), ticks) <= ReadyIn(processes, ticks)
      ensures forall i :: 0 <= i < |processes| ==> processes[i].pid == old(processes)[i].pid
      ensures history == old(history) + [Dispatched(processes[index].pid, processes[index].context)]
      ensures processes == old(processes)[index := old(processes)[index].(preSchedule := false, awaiting := None,
                                                                          sleepUntil := None)]
    {
      hide Saved, Waits, Lawful, PidsOk, Ticks, Permitted;
      var q := processes[index];
      var q' := q.(preSchedule := false, awaiting := None, sleepUntil := None);
      ghost var e := Dispatched(q.pid, q.context);
      ReadyIsPermitted(history, processes, current, pidCounter, ticks, false, index);
      assert ProcessOk(history, q, Runs(onCpu, current, index));
      Appended(history, e, q.pid);
      ReadyNotBlocked(history, processes, ticks, q);
      StillReady(processes, index, q', ticks);
      UpdateOk(history, processes, current, pidCounter, ticks, onCpu, e, index, q', index, true);
      processes := processes[index := q'];
      current, onCpu := index, true;
      history := history + [e];
    }

    // ------------------------------------------------------------------- wait reasons

    /** Records a wait reason of the running process. */
    method SetCurrent(q: Process, ghost e: Event)
      requires e.Blocked? || e.Awaits? || e.Sleeps?
      requires Valid() && Settled() && onCpu && current < |processes| && q.pid == processes[current].pid == e.pid
      requires !q.preSchedule && WaitOk(history + [e], q)
      modifies this`processes, this`history
      ensures Valid() && history == old(history) + [e] && processes == old(processes)[current := q]
    {
      hide Saved, Waits, Lawful, PidsOk, Ticks;
      UpdateOk(history, processes, current, pidCounter, ticks, onCpu, e, current, q, current, onCpu);
      processes := processes[current := q];
      history := history + [e];
    }

    /** The running process as the wait calls find it: not waiting for anything. */
    ghost predicate Running()
      reads this
    {
      && Valid() && Settled() && onCpu && current < |processes|
      && !processes[current].preSchedule && !processes[current].blocking
      && processes[current].awaiting == None && processes[current].sleepUntil == None
    }

    lemma IsRunning()
      requires Valid() && Settled() && onCpu
      ensures Running()
    {
      hide Saved, Waits, Lawful, PidsOk, Ticks;
      assert ProcessOk(history, processes[current], Runs(onCpu, current, current));
    }

    method BlockCurrent()
      requires Running()
      modifies this`processes, this`history
      ensures Valid() && history == old(history) + [Blocked(old(processes[current].pid))]
      ensures current < |processes| && processes[current].pid == old(processes[current].pid)
    {
      hide Waits, Inv, Saved, Alive, Ticks;
      var q := processes[current];
      ghost var e := Blocked(q.pid);
      Appended(history, e, q.pid);
      SetCurrent(q.(blocking := true), e);
    }

    method CurrentWaitForProcess(target: nat)
      requires Running()
      modifies this`processes, this`history
      ensures Valid() && history == old(history) + [Awaits(old(processes[current].pid), target)]
      ensures current < |processes| && processes[current].pid == old(processes[current].pid)
    {
      hide Waits, Inv, Saved, Alive, Ticks;
      var q := processes[current];
      ghost var e := Awaits(q.pid, target);
      Appended(history, e, q.pid);
      SetCurrent(q.(awaiting := Some(target)), e);
    }

    method SleepCurrentUntil(deadline: nat, ghost duration: nat)
      requires Running() && IsLeastTick(deadline, Clock(history) + duration)
      modifies this`processes, this`history
      ensures Valid() && history == old(history) + [Sleeps(old(processes[current].pid), duration)]
      ensures current < |processes| && processes[current].pid == old(processes[current].pid)
    {
      hide Waits, Inv, Ticks, Saved, Alive, IsLeastTick;
      var q := processes[current];
      ghost var e := Sleeps(q.pid, duration);
      Appended(history, e, q.pid);
      SetCurrent(q.(sleepUntil := Some(deadline)), e);
    }

    /** Every process blocked on input gets it in rax and may run again. */
    method ProcessInput(input: nat)
      requires Valid() && Settled()
      modifies this`processes, this`history
      ensures Valid() && Settled() && history == old(history) + Deliveries(old(processes), Some(input))
                && |processes| == |old(processes)|
      ensures forall i :: 0 <= i < |processes| ==>
                var q := old(processes)[i];
                processes[i] == if q.blocking then q.(context := q.context.(rax := input), blocking := false) else q
    {
      hide Inv, Saved, Waits, Ticks, Alive;
      var i := 0;
      ghost var ps0, h0 := processes, history;
      assert Deliveries(ps0[..0], Some(input)) == [];
      while i < |processes|
        invariant 0 <= i <= |processes| == |old(processes)| && Valid() && Settled()
        invariant history == h0 + Deliveries(ps0[..i], Some(input))
        invariant forall j :: 0 <= j < |processes| ==>
                    var q := old(processes)[j];
                    processes[j] ==
                      if j < i && q.blocking then q.(context := q.context.(rax := input), blocking := false) else q
      {
        var q := processes[i];
        if q.blocking {
          DeliverOk(history, processes, current, pidCounter, ticks, onCpu, i, input);
          processes := processes[i := q.(context := q.context.(rax := input), blocking := false)];
          history := history + [Delivered(q.pid, input)];
        }
        DeliveriesNext(ps0, i, input);
        i := i + 1;
      }
      assert ps0[..i] == ps0;
    }

    // -------------------------------------------------------------- coming and going

    /** A new process gets the next pid; a failed one uses the pid up all the same. */
    method Deploy(loads: bool, entry: Frame) returns (pid: nat)
      requires Valid() && Settled()
      modifies this`processes, this`pidCounter, this`history
      ensures Valid() && Settled() && pidCounter == old(pidCounter) + 1
      ensures loads ==>
                pid == old(pidCounter) && history == old(history) + [Deployed(pid, entry)] && Unused(old(history), pid)
      ensures !loads ==> history == old(history) && processes == old(processes)
    {
      hide Saved, Waits, Lawful, Ticks, Alive;
      pid := pidCounter;
      if !loads {
        pidCounter := pidCounter + 1;
        return 0;
      }
      var q := Process(pid, true, false, None, None, entry);
      ghost var e := Deployed(pid, entry);
      DeployOk(history, processes, current, pidCounter, ticks, onCpu, q);
      if onCpu {
        KnownPid(history, processes, pidCounter, current);
        Appended(history, e, processes[current].pid);
      }
      pidCounter := pidCounter + 1;
      processes := processes + [q];
      history := history + [e];
    }

    method ExitCurrent()
      requires Valid() && onCpu
      modifies this
      ensures Valid() && !onCpu && pidCounter == old(pidCounter)
      ensures old(current) < |old(processes)| && history == old(history) + [Exited(old(processes[current].pid))]
    {
      hide Saved, Waits, Lawful, Ticks, PidsOk, ProcessOk;
      ExitOk(history, processes, current, pidCounter, ticks);
      ghost var e := Exited(processes[current].pid);
      processes := processes[..current] + processes[current + 1..];
      current := if current != 0 then current - 1 else 0;
      onCpu := false;
      history := history + [e];
    }

    // ---------------------------------------------------------------- interrupts and calls

    method TimerIsr(stack: Frame, input: Option<nat>)
      requires Valid() && Settled() && (UserFrame(stack) <==> onCpu)
      modifies this
      ensures Valid() && Settled()
      ensures ThenDispatches(old(history)
                + Opening(Timer(stack, input), old(RunningPid()), old(pidCounter), old(processes)), history)
      ensures pidCounter == old(pidCounter) && (!onCpu ==> Idle(history))
    {
      hide Inv, Waits, ReadyIn, Turn;
      ghost var h0, ps0, running := history, processes, RunningPid();
      Tick();
      if input.Some? {
        ProcessInput(input.value);
      }
      TimerOpening(h0, stack, input, running, pidCounter, ps0, history);
      var next := NextProcess(Some(stack));
    }

    /** The pid of the process in user code. */
    ghost function RunningPid(): Option<nat>
      reads this
    {
      if onCpu && current < |processes| then Some(processes[current].pid) else None
    }

    /** Sleeps until the clock has moved on by at least the duration. */
    method NanosleepCall(stack: Frame, seconds: int, nanoseconds: int)
      requires Valid() && Settled() && onCpu && UserFrame(stack)
      modifies this
      ensures Valid() && Settled()
      ensures ThenDispatches(old(history)
                + Opening(Nanosleep(stack, seconds, nanoseconds), old(RunningPid()), old(pidCounter), old(processes)),
                history)
      ensures pidCounter == old(pidCounter) && (!onCpu ==> Idle(history))
    {
      hide Inv, Waits, ReadyIn, Turn, Ticks, SleepTime, DurationToTicks, Clock, Opening;
      ghost var h0, pid := history, processes[current].pid;
      ghost var total := SleepTime(seconds, nanoseconds);
      SleepTimeCases(seconds, nanoseconds);
      OpeningOf(h0, Nanosleep(stack, seconds, nanoseconds), pid, pidCounter, processes);
      if seconds < 0 || nanoseconds < 0 || nanoseconds >= NANOSECONDS_PER_SECOND {
        return;
      }
      var count := DurationToTicks(seconds, nanoseconds);
      if count.None? || count.value == 0 {
        return;
      }
      IsRunning();
      TicksCounted(history, processes, current, pidCounter, ticks, onCpu);
      DeadlineCovers(history, count.value, total);
      SleepCurrentUntil(ticks + count.value, total);
      var next := NextProcess(Some(stack.(rax := 1)));
      TwoEvents(h0, Sleeps(pid, total), Stopped(pid, stack.(rax := 1)));
    }

    /** One interrupt or call; when no process runs, only the timer can strike. */
    method Handle(cause: Cause)
      requires Valid() && Settled() && Plausible(cause)
      modifies this
      ensures Valid() && Settled()
      ensures ThenDispatches(old(history) + Opening(cause, old(RunningPid()), old(pidCounter), old(processes)), history)
      ensures pidCounter == old(pidCounter) + if cause.Execute? && old(onCpu) then 1 else 0
      ensures !onCpu && (cause.Timer? || old(onCpu)) ==> Idle(history)
    {
      hide Inv, Waits, ReadyIn, Turn, WaitOk, SleepTime, Opening;
      ghost var h0 := history;
      if cause.Timer? {
        IdleTimer(IDLE_FRAME, cause, pidCounter, processes);
        TimerIsr(if onCpu then cause.frame else IDLE_FRAME, cause.input);
        return;
      }
      if !onCpu {
        IdleOpening(h0, cause, pidCounter, processes);
        return;
      }
      IsRunning();
      ghost var pid := processes[current].pid;
      OpeningOf(h0, cause, pid, pidCounter, processes);
      match cause
      case Yield(frame) =>
        var next := NextProcess(Some(frame));
      case ReadStdin(frame) =>
        BlockCurrent();
        var next := NextProcess(Some(frame));
        TwoEvents(h0, Blocked(pid), Stopped(pid, frame));
      case WaitFor(frame, target) =>
        CurrentWaitForProcess(target);
        var next := NextProcess(Some(frame));
        TwoEvents(h0, Awaits(pid, target), Stopped(pid, frame));
      case Nanosleep(frame, seconds, nanoseconds) =>
        NanosleepCall(frame, seconds, nanoseconds);
      case Exit =>
        ExitCurrent();
        var next := NextProcess(None);
      case Execute(loads, entry) =>
        var child := Deploy(loads, entry);
    }

    /** The whole state, as a value. */
    ghost function Now(): Snapshot
      reads this
    {
      Snapshot(history, processes, current, pidCounter, ticks, onCpu)
    }

    /**
      Every run of the machine is lawful: from the first deployed process on,
      each process only ever resumes with the frame it stopped with, after the
      end of what it waits for, and no pid is used twice. `trace` holds the
      states between the causes; each follows from the one before by its cause.
     */
    method Run(shell: Frame, causes: seq<Cause>) returns (ghost trace: seq<Snapshot>)
      requires Valid() && Settled() && forall k :: 0 <= k < |causes| ==> Plausible(causes[k])
      modifies this
      ensures Valid() && Settled() && Lawful(history)
      ensures processes != [] ==> current < |processes|
      ensures IsTrace(trace, causes) && trace[|causes|] == Now()
      ensures trace[0].history == old(history) + [Deployed(old(pidCounter), shell)]
    {
      hide Waits, Inv, Lawful, Opening, ReadyIn, ThenDispatches, IsTrace;
      var pid := Deploy(true, shell);
      trace := [Now()];
      TraceStarts(trace[0], causes);
      for k := 0 to |causes|
        invariant Valid() && Settled() && |trace| == k + 1 && trace[k] == Now()
        invariant trace[0].history == old(history) + [Deployed(old(pidCounter), shell)]
        invariant IsTrace(trace, causes[..k])
      {
        Handle(causes[k]);
        TraceGoesOn(trace, causes, k, Now());
        trace := trace + [Now()];
      }
      assert causes[..|causes|] == causes;
      ValidIsLawful(history, processes, current, pidCounter, ticks, onCpu);
    }

    /**
      Processes that only yield: a ready one is dispatched within as many calls
      as it is away around the table.
     */
    method YieldUntil(j: nat, frames: seq<Frame>) returns (calls: nat)
      requires Valid() && Settled() && onCpu && j in ReadyIn(processes, ticks) && j != current
      requires current < |processes| && |frames| >= Distance(current, j, |processes|)
      requires forall k :: 0 <= k < |frames| ==> UserFrame(frames[k])
      modifies this
      ensures Valid() && Settled() && onCpu && current == j && |processes| == |old(processes)|
      ensures 1 <= calls <= Distance(old(current), j, |old(processes)|)
      ensures |history| > 0 && history[|history| - 1] == Dispatched(processes[j].pid, processes[j].context)
      ensures processes[j].pid == old(processes)[j].pid
    {
      hide Inv, Waits, IsReady, IsNext, Around, Turn, Distance;
      ghost var n, start := |processes|, current;
      calls := 0;
      while current != j
        invariant Valid() && Settled() && onCpu && |processes| == n && current < n && j in ReadyIn(processes, ticks)
        invariant processes[j].pid == old(processes)[j].pid
        invariant current != j ==> calls + Distance(current, j, n) <= Distance(start, j, n)
        invariant current == j ==>
                  && calls >= 1
                  && |history| > 0
                  && history[|history| - 1] == Dispatched(processes[j].pid, processes[j].context)
        invariant calls <= Distance(start, j, n)
        decreases if current == j then 0 else Distance(current, j, n)
      {
        ghost var was, ready := current, ReadyIn(processes, ticks);
        DistanceReaches(was, j, n);
        var next := NextProcess(Some(frames[calls]));
        TurnCloser(n, ready, was, current, j);
        calls := calls + 1;
      }
    }
  }

  /** Who may run depends on the pids in the table only. */
  lemma SameMayRun(h: History, ps: seq<Process>, ps': seq<Process>)
    requires |ps'| == |ps| && forall i :: 0 <= i < |ps| ==> ps'[i].pid == ps[i].pid
    ensures MayRunIn(h, ps') == MayRunIn(h, ps)
  {
    hide MayRun;
  }

  datatype Snapshot = Snapshot(history: History, processes: seq<Process>, current: nat, pidCounter: nat, ticks: nat,
      onCpu: bool)

  ghost predicate SnapshotOk(s: Snapshot) {
    Inv(s.history, s.processes, s.current, s.pidCounter, s.ticks, s.onCpu)
  }

  ghost function RunningIn(s: Snapshot): Option<nat> {
    if s.onCpu && s.current < |s.processes| then Some(s.processes[s.current].pid) else None
  }

  /** The cause records its events, then at most one dispatch; nobody idles while a process is ready. */
  ghost predicate Follows(s: Snapshot, cause: Cause, s': Snapshot) {
    && ThenDispatches(s.history + Opening(cause, RunningIn(s), s.pidCounter, s.processes), s'.history)
    && s'.pidCounter == s.pidCounter + (if cause.Execute? && s.onCpu then 1 else 0)
    && (!s'.onCpu && (cause.Timer? || s.onCpu) ==> Idle(s'.history))
  }

  ghost predicate IsTrace(trace: seq<Snapshot>, causes: seq<Cause>) {
    && |trace| == |causes| + 1
    && (forall k :: 0 <= k < |trace| ==> SnapshotOk(trace[k]))
    && forall k :: 0 <= k < |causes| ==> Follows(trace[k], causes[k], trace[k + 1])
  }

  lemma TraceStarts(s: Snapshot, causes: seq<Cause>)
    requires SnapshotOk(s)
    ensures IsTrace([s], causes[..0])
  {
  }

  lemma TraceGoesOn(trace: seq<Snapshot>, causes: seq<Cause>, k: nat, s: Snapshot)
    requires k < |causes| && IsTrace(trace, causes[..k]) && SnapshotOk(s) && |trace| == k + 1
    requires Follows(trace[k], causes[k], s)
    ensures IsTrace(trace + [s], causes[..k + 1])
  {
    hide SnapshotOk, Follows;
    var t, c := trace + [s], causes[..k + 1];
    forall j | 0 <= j < |c| ensures Follows(t[j], c[j], t[j + 1]) {
      assert c[j] == causes[j] && (j < k ==> causes[..k][j] == causes[j]);
    }
  }

  lemma ValidIsLawful(h: History, ps: seq<Process>, current: nat, counter: nat, ticks: nat, onCpu: bool)
    requires Inv(h, ps, current, counter, ticks, onCpu)
    ensures Lawful(h) && (ps != [] ==> current < |ps|)
  {
  }

  lemma TurnCloser(n: nat, ready: set<nat>, c: nat, c': nat, j: nat)
    requires c < n && j < n && j in ready && Turn(n, ready, c, c')
    ensures c' < n && (c' != j ==> Distance(c', j, n) < Distance(c, j, n))
  {
    hide IsNext, Around, Distance;
    var d :| IsNext(n, ready, c, d) && c' == Around(c, d, n);
    ComesCloser(n, ready, c, d, j);
  }

  /** Delivering input to a blocked process leaves the running one alone. */
  lemma DeliverOk(h: History, ps: seq<Process>, current: nat, counter: nat, ticks: nat, onCpu: bool, i: nat, input: nat)
    requires Inv(h, ps, current, counter, ticks, onCpu) && i < |ps| && ps[i].blocking
    ensures var q := ps[i].(context := ps[i].context.(rax := input), blocking := false);
            Inv(h + [Delivered(ps[i].pid, input)], ps[i := q], current, counter, ticks, onCpu)
    ensures onCpu ==>
              && current < |ps|
              && Waits(h + [Delivered(ps[i].pid, input)], ps[current].pid) in {Nothing, Waits(h, ps[current].pid)}
  {
    hide Saved, Waits, Lawful, PidsOk, Ticks, Alive;
    var e := Delivered(ps[i].pid, input);
    var q := ps[i].(context := ps[i].context.(rax := input), blocking := false);
    assert ProcessOk(h, ps[i], Runs(onCpu, current, i));
    Appended(h, e, ps[i].pid);
    UpdateOk(h, ps, current, counter, ticks, onCpu, e, i, q, current, onCpu);
    if onCpu {
      Appended(h, e, ps[current].pid);
    }
  }

  /** When a request sleeps at all, and for how long. */
  lemma SleepTimeCases(seconds: int, nanoseconds: int)
    ensures seconds < 0 || nanoseconds < 0 || nanoseconds >= NANOSECONDS_PER_SECOND ==>
              SleepTime(seconds, nanoseconds) == 0
    ensures seconds >= 0 && 0 <= nanoseconds < NANOSECONDS_PER_SECOND ==>
              var r, total := DurationToTicks(seconds, nanoseconds), SleepTime(seconds, nanoseconds);
              && (r.None? || r.value == 0 ==> total == 0)
              && (r.Some? && r.value > 0 ==> total > 0 && IsLeastTick(r.value, total))
  {
  }

  lemma DeadlineCovers(h: History, count: nat, total: nat)
    requires IsLeastTick(count, total)
    ensures IsLeastTick(Ticks(h) + count, Clock(h) + total)
  {
    hide Ticks;
  }

  lemma TwoEvents(h: History, a: Event, b: Event)
    ensures h + [a] + [b] == h + [a, b]
  {
  }

  lemma OpeningOf(h: History, cause: Cause, pid: nat, newPid: nat, ps: seq<Process>)
    requires !cause.Timer?
    ensures Opening(cause, Some(pid), newPid, ps) == CallEvents(cause, pid, newPid)
    ensures h + [] == h
  {
    hide CallEvents;
  }

  lemma IdleOpening(h: History, cause: Cause, newPid: nat, ps: seq<Process>)
    requires !cause.Timer?
    ensures h + Opening(cause, None, newPid, ps) == h
  {
  }

  /** The frame of the idle loop is not recorded. */
  lemma IdleTimer(f: Frame, cause: Cause, newPid: nat, ps: seq<Process>)
    requires cause.Timer?
    ensures Opening(Timer(f, cause.input), None, newPid, ps) == Opening(cause, None, newPid, ps)
  {
  }

  lemma DeliveriesNext(ps: seq<Process>, i: nat, input: nat)
    requires i < |ps|
    ensures Deliveries(ps[..i + 1], Some(input)) == Deliveries(ps[..i], Some(input)) + Delivery(ps[i], input)
  {
    assert ps[..i + 1][..i] == ps[..i];
  }

  lemma TimerOpening(h: History, f: Frame, input: Option<nat>, running: Option<nat>, newPid: nat, ps: seq<Process>,
                     h1: History)
    requires h1 == if input.Some? then h + [Ticked] + Deliveries(ps, input) else h + [Ticked]
    ensures h + Opening(Timer(f, input), running, newPid, ps) ==
              h1 + (if running.Some? then [Stopped(running.value, f)] else [])
  {
    hide Deliveries;
    assert input.None? ==> Deliveries(ps, input) == [] by { NoInput(ps); }
  }

  lemma NoInput(ps: seq<Process>)
    ensures Deliveries(ps, None) == []
  {
  }

  lemma TicksCounted(h: History, ps: seq<Process>, current: nat, counter: nat, ticks: nat, onCpu: bool)
    requires Inv(h, ps, current, counter, ticks, onCpu)
    ensures ticks == Ticks(h)
  {
  }

  /** Registers do not decide who is ready. */
  lemma SameReady(ps: seq<Process>, i: nat, f: Frame, ticks: nat)
    requires i < |ps|
    ensures ReadyIn(ps[i := ps[i].(context := f)], ticks) == ReadyIn(ps, ticks)
  {
    hide HasPid;
    var ps' := ps[i := ps[i].(context := f)];
    forall p: nat ensures HasPid(ps', p) <==> HasPid(ps, p) {
      SamePids(ps, ps', p);
    }
  }

  /** A process that stops waiting makes nobody else wait. */
  lemma StillReady(ps: seq<Process>, i: nat, q: Process, ticks: nat)
    requires i < |ps| && q.pid == ps[i].pid && !q.blocking && q.awaiting == None && q.sleepUntil == None
    ensures ReadyIn(ps, ticks) <= ReadyIn(ps[i := q], ticks)
  {
    hide HasPid;
    forall p: nat ensures HasPid(ps[i := q], p) <==> HasPid(ps, p) {
      SamePids(ps, ps[i := q], p);
    }
  }

  lemma ReadyNotBlocked(h: History, ps: seq<Process>, ticks: nat, q: Process)
    requires WaitOk(h, q) && IsReady(ps, ticks, q)
    ensures !q.blocking
  {
  }

  lemma CurrentInTable(h: History, ps: seq<Process>, current: nat, counter: nat, ticks: nat, onCpu: bool)
    requires Inv(h, ps, current, counter, ticks, onCpu)
    ensures if ps == [] then current == 0 && !onCpu else current < |ps|
  {
  }

  lemma AroundNone(c: nat, n: nat)
    requires c < n
    ensures Around(c, 0, n) == c
  {
  }

  lemma AroundNext(c: nat, d: nat, n: nat)
    requires c < n && d < n
    ensures Around(c, d + 1, n) == if Around(c, d, n) + 1 >= n then 0 else Around(c, d, n) + 1
    ensures Around(c, d + 1, n) < n
  {
    if d > 0 {
      AroundStep(c, d, n);
    } else {
      AroundNone(c, n);
    }
    AroundStep(c, d + 1, n);
  }

  lemma FoundNext(n: nat, ready: set<nat>, c: nat, d: nat, index: nat)
    requires 1 <= d <= n && index == Around(c, d, n) && index in ready
    requires forall e: nat :: 1 <= e <= d - 1 ==> Around(c, e, n) !in ready
    ensures Turn(n, ready, c, index)
  {
    assert IsNext(n, ready, c, d);
  }

  lemma NoneReady(n: nat, ready: set<nat>, c: nat)
    requires c < n && (forall i :: i in ready ==> i < n)
    requires forall e: nat :: 1 <= e <= n ==> Around(c, e, n) !in ready
    ensures ready == {}
  {
    forall i | i in ready ensures false {
      DistanceReaches(c, i, n);
    }
  }
}
