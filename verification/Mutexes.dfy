/** A mutex between processes: it is taken and released in steps that interrupts cannot split,
    while processes are preempted, sleep, wake, come and go in any order. */
module Mutexes {
  import opened ProcessState
  import opened Processes

  /** Where a process is in its use of the mutex: not in it, asleep in mutex_lock, woken there and
      yet to look at the lock again, or past it. */
  datatype Phase = Out | Asleep | Rechecking | Holding

  function PhaseOf(phase: map<int, Phase>, p: int): Phase {
    if p in phase then phase[p] else Out
  }

  /** Ready or running. */
  predicate Runnable(current: int, ready: seq<int>, p: int) {
    p == current || p in ready
  }

  /** At most one process holds the lock, and it is set exactly when one does. */
  ghost predicate Exclusive(locked: bool, phase: map<int, Phase>) {
    && (forall p, q {:trigger PhaseOf(phase, p), PhaseOf(phase, q)} ::
          PhaseOf(phase, p) == Holding && PhaseOf(phase, q) == Holding ==> p == q)
    && (locked <==> exists p {:trigger PhaseOf(phase, p)} :: PhaseOf(phase, p) == Holding)
  }

  /** The sleepers are on the wait queue; who was woken will run. */
  ghost predicate Accounted(current: int, ready: seq<int>, sleepers: seq<int>, phase: map<int, Phase>) {
    && PhaseOf(phase, 0) == Out
    && (forall p {:trigger PhaseOf(phase, p)} :: PhaseOf(phase, p) == Asleep <==> p in sleepers)
    && (forall p {:trigger PhaseOf(phase, p)} :: PhaseOf(phase, p) == Rechecking ==> Runnable(current, ready, p))
  }

  /** Nobody sleeps on a free lock unless somebody who was woken, and is ready or running, is yet to
      look at it. */
  ghost predicate NoneStranded(locked: bool, current: int, ready: seq<int>, sleepers: seq<int>, phase: map<int, Phase>)
  {
    !locked && sleepers != [] ==> exists p {:trigger PhaseOf(phase, p)} ::
      PhaseOf(phase, p) == Rechecking && Runnable(current, ready, p)
  }

  ghost predicate MutexOk(locked: bool, current: int, ready: seq<int>, sleepers: seq<int>, phase: map<int, Phase>) {
    Exclusive(locked, phase) && Accounted(current, ready, sleepers, phase)
    && NoneStranded(locked, current, ready, sleepers, phase)
  }

  /** The running process takes the free lock. */
  lemma Taken(current: int, ready: seq<int>, sleepers: seq<int>, phase: map<int, Phase>)
    requires MutexOk(false, current, ready, sleepers, phase) && PhaseOf(phase, current) != Asleep && current != 0
    ensures MutexOk(true, current, ready, sleepers, phase[current := Holding])
  {
    var phase' := phase[current := Holding];
    assert PhaseOf(phase', current) == Holding;
    forall p, q | PhaseOf(phase', p) == Holding && PhaseOf(phase', q) == Holding ensures p == q {
      assert PhaseOf(phase, p) == Holding ==> false;
      assert PhaseOf(phase, q) == Holding ==> false;
    }
    forall p
      ensures PhaseOf(phase', p) == Asleep <==> p in sleepers { assert PhaseOf(phase, p) == Asleep <==> p in sleepers; }
    forall p | PhaseOf(phase', p) == Rechecking
      ensures Runnable(current, ready, p) { assert PhaseOf(phase, p) == Rechecking; }
  }

  /** The running process finds the lock taken and goes to sleep; the first that is ready runs. */
  lemma Slept(current: int, ready: seq<int>, sleepers: seq<int>, phase: map<int, Phase>, current': int,
              ready': seq<int>)
    requires MutexOk(true, current, ready, sleepers, phase) && PhaseOf(phase, current) != Holding && current != 0
    requires forall p :: p in ready ==> Runnable(current', ready', p)
    ensures MutexOk(true, current', ready', sleepers + [current], phase[current := Asleep])
  {
    var phase' := phase[current := Asleep];
    forall p ensures PhaseOf(phase', p) == Holding <==> PhaseOf(phase, p) == Holding {}
    forall p
      ensures PhaseOf(phase', p) == Asleep <==>
                p in sleepers + [current] { assert PhaseOf(phase, p) == Asleep <==> p in sleepers; }
    forall p | PhaseOf(phase', p) == Rechecking
      ensures Runnable(current', ready', p) { assert PhaseOf(phase, p) == Rechecking; }
  }

  /** The holder lets go; the one who has slept longest is woken. */
  lemma LetGo(current: int, ready: seq<int>, sleepers: seq<int>, phase: map<int, Phase>)
    requires MutexOk(true, current, ready, sleepers, phase) && PhaseOf(phase, current) == Holding
    requires forall i, j :: 0 <= i < j < |sleepers| ==> sleepers[i] != sleepers[j]
    ensures sleepers == [] ==> MutexOk(false, current, ready, sleepers, phase[current := Out])
    ensures sleepers != [] ==>
              MutexOk(false, current, ready + [sleepers[0]], sleepers[1..],
                      phase[current := Out][sleepers[0] := Rechecking])
  {
    var phase1 := phase[current := Out];
    var phase' := if sleepers == [] then phase1 else phase1[sleepers[0] := Rechecking];
    var ready' := if sleepers == [] then ready else ready + [sleepers[0]];
    var rest := if sleepers == [] then sleepers else sleepers[1..];
    forall p ensures PhaseOf(phase', p) != Holding { assert PhaseOf(phase, p) == Holding ==> p == current; }
    if sleepers != [] {
      assert PhaseOf(phase, sleepers[0]) == Asleep && PhaseOf(phase, 0) == Out;
      assert sleepers == [sleepers[0]] + rest;
      assert PhaseOf(phase', sleepers[0]) == Rechecking && Runnable(current, ready', sleepers[0]);
    }
    forall p
      ensures PhaseOf(phase', p) == Asleep <==> p in rest { assert PhaseOf(phase, p) == Asleep <==> p in sleepers; }
    forall p | PhaseOf(phase', p) == Rechecking
      ensures Runnable(current, ready', p)
        { assert PhaseOf(phase, p) == Rechecking || (sleepers != [] && p == sleepers[0]); }
  }

  /** Others run, sleep elsewhere, wake or go: whoever was woken for the lock can still run. */
  lemma Otherwise(locked: bool, current: int, ready: seq<int>, sleepers: seq<int>, phase: map<int, Phase>,
                  current': int, ready': seq<int>)
    requires MutexOk(locked, current, ready, sleepers, phase)
    requires forall p {:trigger PhaseOf(phase, p)} ::
               PhaseOf(phase, p) == Rechecking && Runnable(current, ready, p) ==> Runnable(current', ready', p)
    ensures MutexOk(locked, current', ready', sleepers, phase)
  {
  }

  class Mutex {
    const sched: Scheduler
    const waitqueue: nat
    var locked: bool

    /** How far each process is in mutex_lock and mutex_unlock. */
    var phase: map<int, Phase>

    ghost predicate Valid()
      reads this, sched
    {
      && sched.Valid() && waitqueue != 0
      && MutexOk(locked, sched.current, ListOf(sched.lists, ReadyList), ListOf(sched.lists, Waiters(waitqueue)), phase)
    }

    constructor (sched: Scheduler, waitqueue: nat)
      requires sched.Valid() && waitqueue != 0 && ListOf(sched.lists, Waiters(waitqueue)) == []
      ensures Valid() && this.sched == sched && this.waitqueue == waitqueue && !locked && phase == map[]
    {
      this.sched, this.waitqueue, locked := sched, waitqueue, false;
      phase := map[];
    }

    /** One look at the lock in mutex_lock, by a process that comes to it or has been woken. */
    method LockStep() returns (got: bool)
      requires Valid() && sched.current != 0 && PhaseOf(phase, sched.current) in {Out, Rechecking}
      modifies this`locked, this`phase, sched
      ensures Valid() && got == !old(locked) && locked
      ensures phase == old(phase)[old(sched.current) := if got then Holding else Asleep]
      ensures got ==> sched.current == old(sched.current) && sched.lists == old(sched.lists)
      ensures !got ==>
                && NextRuns(ListOf(old(sched.lists), ReadyList), sched.current, ListOf(sched.lists, ReadyList))
                && ListOf(sched.lists, Waiters(waitqueue))
                     == ListOf(old(sched.lists), Waiters(waitqueue)) + [old(sched.current)]
    {
      got := !locked;
      var current, ready, sleepers := sched.current, ListOf(sched.lists, ReadyList),
          ListOf(sched.lists, Waiters(waitqueue));
      if locked {
        sched.Wait(waitqueue);
        Slept(current, ready, sleepers, phase, sched.current, ListOf(sched.lists, ReadyList));
        phase := phase[current := Asleep];
      } else {
        Taken(current, ready, sleepers, phase);
        locked := true;
        phase := phase[current := Holding];
      }
    }

    /** mutex_unlock, by the process that holds the lock. */
    method Unlock()
      requires Valid() && PhaseOf(phase, sched.current) == Holding
      modifies this`locked, this`phase, sched
      ensures Valid() && !locked && sched.current == old(sched.current)
      ensures var sleepers := ListOf(old(sched.lists), Waiters(waitqueue));
              if sleepers == [] then phase == old(phase)[sched.current := Out]
              else phase == old(phase)[sched.current := Out][sleepers[0] := Rechecking]
                   && ListOf(sched.lists, Waiters(waitqueue)) == sleepers[1..]
                   && ListOf(sched.lists, ReadyList) == ListOf(old(sched.lists), ReadyList) + [sleepers[0]]
    {
      var current, ready, sleepers := sched.current, ListOf(sched.lists, ReadyList),
          ListOf(sched.lists, Waiters(waitqueue));
      assert ListOk(sched.lists, sched.place, Waiters(waitqueue))
             && PlaceOk(current, sched.lists, sched.place, current);
      assert PhaseOf(phase, current) == Holding;
      LetGo(current, ready, sleepers, phase);
      locked := false;
      sched.Wakeup(waitqueue);
      phase := phase[current := Out];
      if sleepers != [] {
        phase := phase[sleepers[0] := Rechecking];
      }
    }

    /** A step that has nothing to do with the lock: the machine may do it at any time, but the
        running process only when it is not inside mutex_lock, where it can only be preempted. The
        machine goes on unless the pids have run out. */
    method OtherStep(e: Event) returns (ok: bool)
      requires Valid() && !e.Lock? && !e.Release?
      modifies sched
      ensures if ok then Valid() else |sched.table| == PROCESS_MAX_PID && NoPid(sched.table, sched.last)
    {
      ok := true;
      match e {
        case Spawn(p) =>
          if p != 0 && p !in sched.info {
            var pid := sched.Create(p);
            ok := pid != 0;
          }
        case Adopt(parent, child) =>
          if parent in sched.info && child in sched.info && sched.Unlaunched(child) { sched.Inherit(parent, child); }
        case Start(p) => if p in sched.info && sched.Unlaunched(p) { Started(p); }
        case Reap(pid) => var r := sched.Reap(pid);
        case ReapAll => sched.ReapAll();
        case Wake(q) => if q != 0 && q != waitqueue { Woke(q, false); }
        case WakeAll(q) => if q != 0 && q != waitqueue { Woke(q, true); }
        case Lock | Release =>
        case _ => RunningStep(e);
      }
    }

    /** The running process is preempted, or does something of its own outside mutex_lock; or the
        machine finds the next one to run. */
    method RunningStep(e: Event)
      requires Valid() && (e.Preempt? || e.Next? || e.Sleep? || e.Leave? || e.WaitFor?)
      modifies sched
      ensures Valid()
    {
      var current, ready, sleepers := sched.current, ListOf(sched.lists, ReadyList),
          ListOf(sched.lists, Waiters(waitqueue));
      hide Exclusive, NoneStranded, NextRuns;
      ghost var more: seq<int> := [];
      match e {
        case Preempt =>
          if sched.current != 0 {
            sched.Yield();
            more := [current];
          }
        case Next =>
          if sched.current == 0 {
            sched.Dispatch();
            HeadOrRest(ready);
          }
        case Sleep(q) =>
          if sched.current != 0 && q != 0 && q != waitqueue
          && PhaseOf(phase, sched.current) != Rechecking { sched.Wait(q); }
        case WaitFor(pid) =>
          if sched.current != 0 && PhaseOf(phase, sched.current) != Rechecking {
            var found, code, reason := sched.WaitChild(pid);
          }
        case Leave(code) =>
          if sched.current != 0 && PhaseOf(phase, sched.current) == Out {
            more := ParentOf(sched.info, ListOf(sched.lists, WATCHERS), current);
            sched.Exit(code);
          }
      }
      assert ready + [] == ready;
      if NextRuns(ready + more, sched.current, ListOf(sched.lists, ReadyList)) {
        StillRun(ready + more, sched.current, ListOf(sched.lists, ReadyList));
      }
      KeepsRunning(current, ready, sched.current, ListOf(sched.lists, ReadyList), phase);
      Otherwise(locked, current, ready, sleepers, phase, sched.current, ListOf(sched.lists, ReadyList));
    }

    /** Processes that wait for something else get ready. */
    method Woke(q: nat, all: bool)
      requires Valid() && q != 0 && q != waitqueue
      modifies sched
      ensures Valid()
    {
      var current, ready, sleepers := sched.current, ListOf(sched.lists, ReadyList),
          ListOf(sched.lists, Waiters(waitqueue));
      if all { sched.WakeupAll(q); } else { sched.Wakeup(q); }
      Otherwise(locked, current, ready, sleepers, phase, sched.current, ListOf(sched.lists, ReadyList));
    }

    method Started(p: int)
      requires Valid() && p in sched.info && p in sched.place && sched.place[p] == Nowhere
      modifies sched
      ensures Valid()
    {
      var current, ready, sleepers := sched.current, ListOf(sched.lists, ReadyList),
          ListOf(sched.lists, Waiters(waitqueue));
      sched.Launch(p);
      Otherwise(locked, current, ready, sleepers, phase, sched.current, ListOf(sched.lists, ReadyList));
    }

    /** Any interleaving of steps of any number of processes, until the pids run out. At the end, and
        so after every step: at most one process is past the lock, the lock is set exactly when one
        is, and when it is free while processes sleep on it, one that was woken is ready or running
        to take it. */
    method Run(events: seq<Event>) returns (ok: bool)
      requires Valid()
      modifies this`locked, this`phase, sched
      ensures if ok then Valid() else |sched.table| == PROCESS_MAX_PID && NoPid(sched.table, sched.last)
      ensures ok ==> forall p, q {:trigger PhaseOf(phase, p), PhaseOf(phase, q)} ::
                PhaseOf(phase, p) == Holding && PhaseOf(phase, q) == Holding ==> p == q
      ensures ok ==> (locked <==> exists p {:trigger PhaseOf(phase, p)} :: PhaseOf(phase, p) == Holding)
      ensures ok && !locked && ListOf(sched.lists, Waiters(waitqueue)) != [] ==>
                exists p {:trigger PhaseOf(phase, p)} ::
                  PhaseOf(phase, p) == Rechecking && Runnable(sched.current, ListOf(sched.lists, ReadyList), p)
    {
      ok := true;
      var k := 0;
      while k < |events| && ok
        invariant k <= |events|
        invariant if ok then Valid() else |sched.table| == PROCESS_MAX_PID && NoPid(sched.table, sched.last)
      {
        match events[k] {
          case Lock =>
            if sched.current != 0 && PhaseOf(phase, sched.current) in {Out, Rechecking} { var got := LockStep(); }
          case Release => if PhaseOf(phase, sched.current) == Holding { Unlock(); }
          case _ => ok := OtherStep(events[k]);
        }
        k := k + 1;
      }
    }
  }

  /** A mutex on a machine that has just started, with one process. */
  method FromTheStart(p: int, waitqueue: nat, events: seq<Event>) returns (ok: bool, m: Mutex)
    requires p != 0 && waitqueue != 0
    ensures ok ==> m.Valid()
  {
    var sched := new Scheduler(p);
    m := new Mutex(sched, waitqueue);
    ok := m.Run(events);
  }

  /** What can happen next. */
  datatype Event =
    | Lock
    | Release
    | Preempt
    | Next
    | Sleep(q: nat)
    | Wake(q: nat)
    | WakeAll(q: nat)
    | Leave(code: int)
    | WaitFor(pid: nat)
    | Spawn(p: int)
    | Adopt(parent: int, child: int)
    | Start(p: int)
    | Reap(pid: nat)
    | ReapAll

  lemma StillRun(ready: seq<int>, current': int, ready': seq<int>)
    requires NextRuns(ready, current', ready')
    ensures forall p :: p in ready ==> Runnable(current', ready', p)
  {
    HeadOrRest(ready);
  }

  lemma KeepsRunning(current: int, ready: seq<int>, current': int, ready': seq<int>, phase: map<int, Phase>)
    requires forall p :: p in ready ==> Runnable(current', ready', p)
    requires PhaseOf(phase, current) == Rechecking ==> Runnable(current', ready', current)
    ensures forall p {:trigger PhaseOf(phase, p)} ::
              PhaseOf(phase, p) == Rechecking && Runnable(current, ready, p) ==> Runnable(current', ready', p)
  {
  }
}
