/** The process table, the dispatcher and the system calls that lead to it. */
module Scheduler {

  import opened Base
  import opened Histories

  datatype Process = Process(pid: nat, preSchedule: bool, blocking: bool, awaiting: Option<nat>,
                             sleepUntil: Option<nat>, context: Frame)

  /** Frames of user code lie above this address, those of the kernel below. */
  const LAST_KERNEL_RIP := 0x1F_FFFF

  predicate UserFrame(f: Frame) { f.rip > LAST_KERNEL_RIP }

  // -------------------------------------------------------------------- readiness

  predicate HasPid(ps: seq<Process>, pid: nat) {
    exists i :: 0 <= i < |ps| && ps[i].pid == pid
  }

  /** What the dispatcher asks of a candidate. */
  predicate IsReady(ps: seq<Process>, ticks: nat, q: Process) {
    && (if q.awaiting.Some? then !HasPid(ps, q.awaiting.value) else !q.blocking)
    && (q.sleepUntil.Some? ==> ticks >= q.sleepUntil.value)
  }

  ghost function ReadyIn(ps: seq<Process>, ticks: nat): set<nat> {
    set i | 0 <= i < |ps| && IsReady(ps, ticks, ps[i])
  }

  /** `d` steps on from `c`, around the table. */
  function Around(c: nat, d: nat, n: nat): nat
    requires n > 0
  {
    (c + d) % n
  }

  /** The first ready index after `c`, going around, is `d` steps away. */
  ghost predicate IsNext(n: nat, ready: set<nat>, c: nat, d: nat)
    requires n > 0
  {
    && 1 <= d <= n && Around(c, d, n) in ready
    && forall e: nat :: 1 <= e < d ==> Around(c, e, n) !in ready
  }

  // -------------------------------------------------------------------- fairness

  /** How far it is from `c` around to `j`. */
  ghost function Distance(c: nat, j: nat, n: nat): nat
    requires c < n && j < n
  {
    if j > c then j - c else j + n - c
  }

  lemma DistanceReaches(c: nat, j: nat, n: nat)
    requires c < n && j < n
    ensures 1 <= Distance(c, j, n) <= n && Around(c, Distance(c, j, n), n) == j
  {
  }

  /** Each dispatch either reaches `j` or comes strictly closer to it. */
  lemma ComesCloser(n: nat, ready: set<nat>, c: nat, d: nat, j: nat)
    requires c < n && j < n && j in ready && IsNext(n, ready, c, d)
    ensures Around(c, d, n) < n
    ensures Around(c, d, n) != j ==> Distance(Around(c, d, n), j, n) < Distance(c, j, n)
  {
    DistanceReaches(c, j, n);
    NextNotBeyond(n, ready, c, d, Distance(c, j, n));
    AroundStep(c, d, n);
  }

  lemma NextNotBeyond(n: nat, ready: set<nat>, c: nat, d: nat, e: nat)
    requires n > 0 && IsNext(n, ready, c, d) && e >= 1 && Around(c, e, n) in ready
    ensures d <= e
  {
  }

  lemma AroundStep(c: nat, d: nat, n: nat)
    requires c < n && 1 <= d <= n
    ensures Around(c, d, n) == if c + d < n then c + d else c + d - n
  {
  }

  /** One call of the dispatcher moves on to the next ready index. */
  ghost predicate Turn(n: nat, ready: set<nat>, c: nat, c': nat) {
    n > 0 && exists d :: IsNext(n, ready, c, d) && c' == Around(c, d, n)
  }

  /** The indices dispatched by successive calls, each seeing its own ready set. */
  ghost predicate Turns(n: nat, ready: seq<set<nat>>, cs: seq<nat>) {
    && |cs| == |ready| + 1 && cs[0] < n
    && forall k :: 0 <= k < |ready| ==> Turn(n, ready[k], cs[k], cs[k + 1])
  }

  /** A process that stays ready is dispatched within as many calls as it is away. */
  lemma {:induction false} BoundedWait(n: nat, ready: seq<set<nat>>, cs: seq<nat>, j: nat)
    requires Turns(n, ready, cs) && j < n
    requires forall k :: 0 <= k < |ready| ==> j in ready[k]
    requires |ready| >= Distance(cs[0], j, n)
    ensures exists k :: 1 <= k <= Distance(cs[0], j, n) && cs[k] == j
    decreases |ready|
  {
    hide Around, IsNext, Distance;
    DistanceReaches(cs[0], j, n);
    assert Turn(n, ready[0], cs[0], cs[1]);
    var d :| IsNext(n, ready[0], cs[0], d) && cs[1] == Around(cs[0], d, n);
    ComesCloser(n, ready[0], cs[0], d, j);
    if cs[1] != j {
      var ready', cs' := ready[1..], cs[1..];
      TurnsLater(n, ready, cs);
      BoundedWait(n, ready', cs', j);
      var k :| 1 <= k <= Distance(cs'[0], j, n) && cs'[k] == j;
      assert cs[k + 1] == j;
    }
  }

  lemma TurnsLater(n: nat, ready: seq<set<nat>>, cs: seq<nat>)
    requires Turns(n, ready, cs) && |ready| > 0 && cs[1] < n
    ensures Turns(n, ready[1..], cs[1..])
  {
    hide Turn;
    var ready', cs' := ready[1..], cs[1..];
    forall k | 0 <= k < |ready'| ensures Turn(n, ready'[k], cs'[k], cs'[k + 1]) {
      var m := k + 1;
      assert Turn(n, ready[m], cs[m], cs[m + 1]);
    }
  }

  // ------------------------------------------------------------------ the invariant

  /** At most one wait reason is set, and it is the one the history tells. */
  ghost predicate WaitOk(h: History, q: Process) {
    match Waits(h, q.pid)
    case Nothing => !q.blocking && q.awaiting == None && q.sleepUntil == None
    case OnInput => q.blocking && q.awaiting == None && q.sleepUntil == None
    case OnExit(target) => !q.blocking && q.awaiting == Some(target) && q.sleepUntil == None
    case Asleep(since, duration) =>
      !q.blocking && q.awaiting == None && q.sleepUntil.Some? && IsLeastTick(q.sleepUntil.value, since + duration)
  }

  /** The first tick that is not before the given time. */
  ghost predicate IsLeastTick(tick: nat, time: nat) {
    tick * NANOSECONDS_PER_TICK >= time && (tick > 0 ==> (tick - 1) * NANOSECONDS_PER_TICK < time)
  }

  ghost predicate ProcessOk(h: History, q: Process, running: bool) {
    WaitOk(h, q) && if running then !q.preSchedule else Saved(h, q.pid) == Some(q.context)
  }

  ghost predicate PidsOk(h: History, ps: seq<Process>, counter: nat) {
    && (forall i, j :: 0 <= i < j < |ps| ==> ps[i].pid != ps[j].pid)
    && (forall p: nat :: Alive(h, p) <==> HasPid(ps, p))
    && (forall p: nat :: !Unused(h, p) ==> p < counter)
  }

  predicate Runs(onCpu: bool, current: nat, j: nat) { onCpu && j == current }

  ghost predicate Inv(h: History, ps: seq<Process>, current: nat, counter: nat, ticks: nat, onCpu: bool) {
    && PidsOk(h, ps, counter)
    && (if ps == [] then current == 0 && !onCpu else current < |ps|)
    && ticks == Ticks(h) && Lawful(h)
    && forall i :: 0 <= i < |ps| ==> ProcessOk(h, ps[i], Runs(onCpu, current, i))
  }

  /** An event about one process, which changes that process alone. */
  lemma UpdateOk(h: History, ps: seq<Process>, current: nat, counter: nat, ticks: nat, onCpu: bool,
                 e: Event, i: nat, q: Process, current': nat, onCpu': bool)
    requires Inv(h, ps, current, counter, ticks, onCpu) && i < |ps| && current' < |ps|
    requires !e.Deployed? && !e.Exited? && !e.Ticked? && e.pid == ps[i].pid && q.pid == ps[i].pid
    requires LawfulStep(h, e) && ProcessOk(h + [e], q, Runs(onCpu', current', i))
    requires forall j :: 0 <= j < |ps| && j != i ==> (Runs(onCpu', current', j) <==> Runs(onCpu, current, j))
    ensures Inv(h + [e], ps[i := q], current', counter, ticks, onCpu')
  {
    hide Saved, Waits, Ticks, Alive, Lawful, LawfulStep, Unused;
    var h', ps' := h + [e], ps[i := q];
    LawfulAppended(h, e);
    Appended(h, e, 0);
    forall j | 0 <= j < |ps'| ensures ProcessOk(h', ps'[j], Runs(onCpu', current', j)) {
      if j != i {
        assert ps[j].pid != ps[i].pid;
        Appended(h, e, ps[j].pid);
        assert ProcessOk(h, ps[j], Runs(onCpu, current, j));
      }
    }
    UpdatePids(h, ps, counter, e, i, q);
  }

  lemma UpdatePids(h: History, ps: seq<Process>, counter: nat, e: Event, i: nat, q: Process)
    requires PidsOk(h, ps, counter) && i < |ps| && q.pid == ps[i].pid && !e.Deployed? && !e.Exited?
    ensures PidsOk(h + [e], ps[i := q], counter)
  {
    hide Alive;
    var ps' := ps[i := q];
    forall p: nat ensures Alive(h + [e], p) <==> HasPid(ps', p) {
      Appended(h, e, p);
      SamePids(ps, ps', p);
    }
    forall p: nat ensures !Unused(h + [e], p) ==> p < counter {
      UnusedAppended(h, e, p);
    }
  }

  lemma SamePids(ps: seq<Process>, ps': seq<Process>, p: nat)
    requires |ps'| == |ps| && forall i :: 0 <= i < |ps| ==> ps'[i].pid == ps[i].pid
    ensures HasPid(ps', p) <==> HasPid(ps, p)
  {
    if HasPid(ps, p) {
      var i :| 0 <= i < |ps| && ps[i].pid == p;
      assert ps'[i].pid == p;
    }
  }

  lemma UnusedAppended(h: History, e: Event, p: nat)
    ensures Unused(h + [e], p) <==> Unused(h, p) && (e.Deployed? ==> e.pid != p)
  {
    var r := h + [e];
    if Unused(r, p) {
      assert forall k :: 0 <= k < |h| ==> h[k] == r[k];
      assert r[|h|] == e;
    }
  }

  lemma LeastTickReached(tick: nat, time: nat, now: nat)
    requires IsLeastTick(tick, time)
    ensures now >= tick <==> now * NANOSECONDS_PER_TICK >= time
  {
  }

  /** The dispatcher calls ready exactly the processes the history lets resume, with the frame they stopped with. */
  lemma ReadyIsPermitted(h: History, ps: seq<Process>, current: nat, counter: nat, ticks: nat, onCpu: bool, i: nat)
    requires Inv(h, ps, current, counter, ticks, onCpu) && i < |ps| && !Runs(onCpu, current, i)
    ensures IsReady(ps, ticks, ps[i]) <==> Permitted(h, ps[i].pid, ps[i].context)
    ensures Saved(h, ps[i].pid) == Some(ps[i].context)
  {
    hide Saved, Waits, Ticks, Alive, Lawful, Unused, IsLeastTick;
    assert ProcessOk(h, ps[i], false);
    assert HasPid(ps, ps[i].pid);
    var w := Waits(h, ps[i].pid);
    if w.Asleep? {
      LeastTickReached(ps[i].sleepUntil.value, w.since + w.duration, ticks);
    }
  }

  /** Whether the history lets a process resume at all. */
  ghost predicate MayRun(h: History, p: nat) {
    exists f :: Permitted(h, p, f)
  }

  /** The places in the table of the processes the history lets resume. */
  ghost function MayRunIn(h: History, ps: seq<Process>): set<nat> {
    set i | 0 <= i < |ps| && MayRun(h, ps[i].pid)
  }

  /** The history lets nobody resume. */
  ghost predicate Idle(h: History) {
    forall p: nat :: !MayRun(h, p)
  }

  lemma MayRunWithSaved(h: History, p: nat, f: Frame)
    requires Saved(h, p) == Some(f)
    ensures MayRun(h, p) <==> Permitted(h, p, f)
  {
    hide Saved, Waits, Alive, Ticks;
  }

  lemma OnlyLivingMayRun(h: History, p: nat)
    requires MayRun(h, p)
    ensures Alive(h, p)
  {
    hide Saved, Waits, Alive, Ticks;
  }

  /**
    With nobody running, the ready places are those the history permits, and
    none is ready exactly when it permits nobody.
   */
  lemma ReadyIsMayRun(h: History, ps: seq<Process>, current: nat, counter: nat, ticks: nat)
    requires Inv(h, ps, current, counter, ticks, false)
    ensures ReadyIn(ps, ticks) == MayRunIn(h, ps)
    ensures ReadyIn(ps, ticks) == {} <==> Idle(h)
  {
    hide Inv, Permitted, IsReady, MayRun;
    forall i | 0 <= i < |ps| ensures i in ReadyIn(ps, ticks) <==> i in MayRunIn(h, ps) {
      ReadyIsPermitted(h, ps, current, counter, ticks, false, i);
      MayRunWithSaved(h, ps[i].pid, ps[i].context);
    }
    forall p: nat | MayRun(h, p) ensures MayRunIn(h, ps) != {} {
      OnlyLivingMayRun(h, p);
      LivingInTable(h, ps, current, counter, ticks, p);
      var i :| 0 <= i < |ps| && ps[i].pid == p;
      assert i in MayRunIn(h, ps);
    }
  }

  lemma LivingInTable(h: History, ps: seq<Process>, current: nat, counter: nat, ticks: nat, p: nat)
    requires Inv(h, ps, current, counter, ticks, false) && Alive(h, p)
    ensures HasPid(ps, p)
  {
    hide Alive, Lawful, ProcessOk, Ticks;
  }

  lemma TickOk(h: History, ps: seq<Process>, current: nat, counter: nat, ticks: nat, onCpu: bool)
    requires Inv(h, ps, current, counter, ticks, onCpu)
    ensures Inv(h + [Ticked], ps, current, counter, ticks + 1, onCpu)
  {
    hide Saved, Waits, Ticks, Alive, Lawful, LawfulStep, Unused;
    LawfulTick(h);
    Appended(h, Ticked, 0);
    forall j | 0 <= j < |ps| ensures ProcessOk(h + [Ticked], ps[j], Runs(onCpu, current, j)) {
      Appended(h, Ticked, ps[j].pid);
      assert ProcessOk(h, ps[j], Runs(onCpu, current, j));
    }
    forall p: nat ensures (Alive(h + [Ticked], p) <==> HasPid(ps, p)) && (!Unused(h + [Ticked], p) ==> p < counter) {
      Appended(h, Ticked, p);
      UnusedAppended(h, Ticked, p);
    }
  }

  lemma LawfulTick(h: History)
    requires Lawful(h)
    ensures Lawful(h + [Ticked])
  {
    LawfulAppended(h, Ticked);
  }

  lemma DeployOk(h: History, ps: seq<Process>, current: nat, counter: nat, ticks: nat, onCpu: bool, q: Process)
    requires Inv(h, ps, current, counter, ticks, onCpu)
    requires q.pid == counter && !q.blocking && q.awaiting == None && q.sleepUntil == None
    ensures Inv(h + [Deployed(counter, q.context)], ps + [q], current, counter + 1, ticks, onCpu)
  {
    hide Saved, Waits, Ticks, Alive, Lawful, Unused;
    var e, ps' := Deployed(counter, q.context), ps + [q];
    assert Unused(h, counter);
    LawfulAppended(h, e);
    Appended(h, e, counter);
    forall j | 0 <= j < |ps'| ensures ProcessOk(h + [e], ps'[j], Runs(onCpu, current, j))
      && (j < |ps| ==> ps'[j].pid < counter) {
      if j < |ps| {
        KnownPid(h, ps, counter, j);
        Appended(h, e, ps[j].pid);
        assert ProcessOk(h, ps[j], Runs(onCpu, current, j));
      }
    }
    forall p: nat ensures (Alive(h + [e], p) <==> HasPid(ps', p)) && (!Unused(h + [e], p) ==> p < counter + 1) {
      Appended(h, e, p);
      UnusedAppended(h, e, p);
      OneMorePid(ps, q, p);
    }
  }

  lemma OneMorePid(ps: seq<Process>, q: Process, p: nat)
    ensures HasPid(ps + [q], p) <==> HasPid(ps, p) || p == q.pid
  {
    var ps' := ps + [q];
    assert ps'[|ps|] == q;
    if HasPid(ps, p) {
      var i :| 0 <= i < |ps| && ps[i].pid == p;
      assert ps'[i].pid == p;
    }
  }

  /** Pids in the table were handed out before. */
  lemma KnownPid(h: History, ps: seq<Process>, counter: nat, j: nat)
    requires PidsOk(h, ps, counter) && j < |ps|
    ensures ps[j].pid < counter
  {
    hide Alive, Unused;
    assert HasPid(ps, ps[j].pid);
    AliveWasUsed(h, ps[j].pid);
  }

  lemma {:induction false} AliveWasUsed(h: History, p: nat)
    requires Alive(h, p)
    ensures !Unused(h, p)
  {
    var front, e := h[..|h| - 1], h[|h| - 1];
    if e.Deployed? && e.pid == p {
    } else {
      AliveWasUsed(front, p);
      UnusedAppended(front, e, p);
      assert front + [e] == h;
    }
  }

  /** The table after the process at `i` left it. */
  function Removed(ps: seq<Process>, i: nat): seq<Process>
    requires i < |ps|
  {
    ps[..i] + ps[i + 1..]
  }

  function Earlier(i: nat): nat { if i != 0 then i - 1 else 0 }

  lemma ExitOk(h: History, ps: seq<Process>, current: nat, counter: nat, ticks: nat)
    requires Inv(h, ps, current, counter, ticks, true)
    ensures current < |ps| && Inv(h + [Exited(ps[current].pid)], Removed(ps, current), Earlier(current), counter, ticks,
              false)
  {
    hide Saved, Waits, Ticks, Alive, Lawful, Unused;
    var e, ps' := Exited(ps[current].pid), Removed(ps, current);
    LawfulAppended(h, e);
    Appended(h, e, 0);
    assert forall j :: 0 <= j < |ps'| ==> ps'[j] == ps[if j < current then j else j + 1];
    forall j | 0 <= j < |ps'| ensures ProcessOk(h + [e], ps'[j], false) {
      var k := if j < current then j else j + 1;
      Appended(h, e, ps[k].pid);
      assert ProcessOk(h, ps[k], false);
    }
    forall p: nat ensures (Alive(h + [e], p) <==> HasPid(ps', p)) && (!Unused(h + [e], p) ==> p < counter) {
      Appended(h, e, p);
      UnusedAppended(h, e, p);
      OneLessPid(ps, current, p);
    }
  }

  lemma OneLessPid(ps: seq<Process>, i: nat, p: nat)
    requires i < |ps| && forall j, k :: 0 <= j < k < |ps| ==> ps[j].pid != ps[k].pid
    ensures HasPid(Removed(ps, i), p) <==> HasPid(ps, p) && p != ps[i].pid
  {
    var ps' := Removed(ps, i);
    assert forall j :: 0 <= j < |ps'| ==> ps'[j] == ps[if j < i then j else j + 1];
    if HasPid(ps, p) && p != ps[i].pid {
      var k :| 0 <= k < |ps| && ps[k].pid == p;
      assert ps'[if k < i then k else k - 1].pid == p;
    }
  }
}
