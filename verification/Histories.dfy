/**
  What a run of the scheduler looks like from outside, and which runs are
  lawful: who may be dispatched, when, and with which registers.
 */
module Histories {

  import opened Base

  /** A saved interrupt frame; `others` are the registers besides rax and rip. */
  datatype Frame = Frame(rax: nat, rip: nat, others: seq<nat>)

  datatype Event =
    | Deployed(pid: nat, frame: Frame)
    | Stopped(pid: nat, frame: Frame)
    | Delivered(pid: nat, input: nat)
    | Blocked(pid: nat)
    | Awaits(pid: nat, target: nat)
    | Sleeps(pid: nat, duration: nat)
    | Exited(pid: nat)
    | Dispatched(pid: nat, frame: Frame)
    | Ticked

  type History = seq<Event>

  const NANOSECONDS_PER_SECOND := 1_000_000_000
  const PIT_HZ := 100
  const NANOSECONDS_PER_TICK := NANOSECONDS_PER_SECOND / PIT_HZ

  ghost function Ticks(h: History): nat {
    if h == [] then 0 else Ticks(h[..|h| - 1]) + if h[|h| - 1].Ticked? then 1 else 0
  }

  /** The kernel's monotonic clock, in nanoseconds. */
  ghost function Clock(h: History): nat { Ticks(h) * NANOSECONDS_PER_TICK }

  /** The frame a process last stopped with; input is delivered in rax. */
  ghost function Saved(h: History, p: nat): Option<Frame> {
    if h == [] then None else SavedAfter(Saved(h[..|h| - 1], p), h[|h| - 1], p)
  }

  ghost function SavedAfter(was: Option<Frame>, e: Event, p: nat): Option<Frame> {
    match e
    case Deployed(q, f) => if q == p then Some(f) else was
    case Stopped(q, f) => if q == p then Some(f) else was
    case Delivered(q, input) => if q == p && was.Some? then Some(was.value.(rax := input)) else was
    case _ => was
  }

  datatype Wait = Nothing | OnInput | OnExit(target: nat) | Asleep(since: nat, duration: nat)

  /** What a process waits for. */
  ghost function Waits(h: History, p: nat): Wait {
    if h == [] then Nothing else WaitsAfter(Waits(h[..|h| - 1], p), Clock(h[..|h| - 1]), h[|h| - 1], p)
  }

  ghost function WaitsAfter(was: Wait, now: nat, e: Event, p: nat): Wait {
    match e
    case Blocked(q) => if q == p then OnInput else was
    case Awaits(q, target) => if q == p then OnExit(target) else was
    case Sleeps(q, duration) => if q == p then Asleep(now, duration) else was
    case Delivered(q, _) => if q == p then Nothing else was
    case Dispatched(q, _) => if q == p then Nothing else was
    case Deployed(q, _) => if q == p then Nothing else was
    case _ => was
  }

  /** Whether a process is in the table. */
  ghost predicate Alive(h: History, p: nat) {
    h != [] && match h[|h| - 1]
               case Deployed(q, _) => q == p || Alive(h[..|h| - 1], p)
               case Exited(q) => q != p && Alive(h[..|h| - 1], p)
               case _ => Alive(h[..|h| - 1], p)
  }

  /** A process may resume only with its own frame, and only once its wait is over. */
  ghost predicate Permitted(h: History, p: nat, f: Frame) {
    && Alive(h, p) && Saved(h, p) == Some(f)
    && match Waits(h, p)
       case Nothing => true
       case OnInput => false
       case OnExit(target) => !Alive(h, target)
       case Asleep(since, duration) => Clock(h) >= since + duration
  }

  /** No process was ever deployed under this pid. */
  ghost predicate Unused(h: History, p: nat) {
    forall k :: 0 <= k < |h| && h[k].Deployed? ==> h[k].pid != p
  }

  ghost predicate LawfulStep(h: History, e: Event) {
    && (e.Dispatched? ==> Permitted(h, e.pid, e.frame))
    && (e.Deployed? ==> Unused(h, e.pid))
  }

  /** Every dispatch was permitted and no pid was used twice. */
  ghost predicate Lawful(h: History) {
    forall k :: 0 <= k < |h| ==> LawfulStep(h[..k], h[k])
  }

  /** What one more event changes. */
  lemma Appended(h: History, e: Event, p: nat)
    ensures Saved(h + [e], p) == SavedAfter(Saved(h, p), e, p)
    ensures Waits(h + [e], p) == WaitsAfter(Waits(h, p), Clock(h), e, p)
    ensures Alive(h + [e], p) <==>
              (if e.Deployed? && e.pid == p then true else if e.Exited? && e.pid == p then false else Alive(h, p))
    ensures Ticks(h + [e]) == Ticks(h) + if e.Ticked? then 1 else 0
  {
    assert (h + [e])[..|h|] == h;
  }

  /** A history stays lawful exactly by a lawful step. */
  lemma LawfulAppended(h: History, e: Event)
    ensures Lawful(h + [e]) <==> Lawful(h) && LawfulStep(h, e)
  {
    hide LawfulStep;
    var r := h + [e];
    if Lawful(r) {
      assert LawfulStep(r[..|h|], r[|h|]) && r[..|h|] == h;
      forall k | 0 <= k < |h| ensures LawfulStep(h[..k], h[k]) {
        assert LawfulStep(r[..k], r[k]) && r[..k] == h[..k];
      }
    }
    if Lawful(h) && LawfulStep(h, e) {
      LawfulStays(h, e);
    }
  }

  lemma LawfulStays(h: History, e: Event)
    requires Lawful(h) && LawfulStep(h, e)
    ensures Lawful(h + [e])
  {
    hide LawfulStep;
    var r := h + [e];
    forall k | 0 <= k < |r| ensures LawfulStep(r[..k], r[k]) {
      assert r[..k] == if k < |h| then h[..k] else h;
      assert k < |h| ==> LawfulStep(h[..k], h[k]);
    }
  }
}
