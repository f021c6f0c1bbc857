/** Scheduling, waiting and waking, exit and reaping. Every method is one step that interrupts
    cannot split; register saving and the hardware are left out. */
module Processes {
  import opened ProcessState

  /** Every pid but perhaps one is taken. */
  ghost predicate NoPid(table: seq<int>, last: nat)
    requires |table| == PROCESS_MAX_PID
  {
    forall i {:trigger table[i]} :: 1 <= i < 1024 && i != last ==> table[i] != 0
  }

  /** Where a pid is free and none is found: all are taken but the one that was given out last. */
  lemma LastPidFree()
    ensures var table := seq(PROCESS_MAX_PID, i => if i == 0 || i == 5 then 0 else 10 + i);
            NoPid(table, 5) && table[5] == 0
  {
  }

  class Scheduler {
    /** The running process, or 0 while the machine waits for an interrupt. */
    var current: int
    var lists: Lists
    var info: map<int, Info>
    var table: seq<int>
    var last: nat

    ghost var place: map<int, Place>

    ghost predicate Valid()
      reads this
    {
      Ok(current, lists, info, table, place) && last < PROCESS_MAX_PID
    }

    /** The machine after process_init: one process, with pid 1, is running. */
    constructor (p: int)
      requires p != 0
      ensures Valid() && current == p && last == 1 && info == map[p := Info(READY, 1, 0, 0, 0, 0)]
      ensures forall l {:trigger ListOf(lists, l)} :: ListOf(lists, l) == []
    {
      current, lists, last := p, map[], 1;
      info, place := map[p := Info(READY, 1, 0, 0, 0, 0)], map[p := Running];
      table := seq(PROCESS_MAX_PID, i => if i == 1 then p else 0);
    }

    /** process_allocate_pid. It fails exactly when all pids are taken but perhaps the last one that
        was given out, which is never looked at again. */
    method AllocatePid() returns (pid: nat)
      requires |table| == PROCESS_MAX_PID && last < PROCESS_MAX_PID
      modifies this`last
      ensures pid == 0 <==> NoPid(table, old(last))
      ensures pid == 0 ==> last == old(last)
      ensures pid != 0 ==>
                && 1 <= pid < PROCESS_MAX_PID && table[pid] == 0 && pid != old(last) && last == pid
                && (if pid > old(last) then forall i :: old(last) < i < pid ==> table[i] != 0
                    else (forall i :: old(last) < i < PROCESS_MAX_PID ==> table[i] != 0) && forall i ::
                           1 <= i < pid ==> table[i] != 0)
    {
      var i := last + 1;
      while i < PROCESS_MAX_PID
        invariant last < i <= PROCESS_MAX_PID && forall j :: last < j < i ==> table[j] != 0
      {
        if table[i] == 0 {
          last := i;
          return i;
        }
        i := i + 1;
      }
      i := 1;
      while i < last
        invariant last == old(last) && 1 <= i <= PROCESS_MAX_PID && (i <= last || i == 1)
        invariant forall j :: 1 <= j < i ==> table[j] != 0
      {
        if table[i] == 0 {
          last := i;
          return i;
        }
        i := i + 1;
      }
      pid := 0;
    }

    /** process_create; p is the address of the new process. Nothing is promised once the pids have
        run out: then the code goes on with pid 0. */
    method Create(p: int) returns (pid: nat)
      requires Valid() && p != 0 && p !in info
      modifies this
      ensures pid == 0 <==> NoPid(old(table), old(last))
      ensures pid == 0 ==> |table| == PROCESS_MAX_PID && NoPid(table, last)
      ensures pid != 0 ==>
                && Valid() && info == old(info)[p := Info(READY, pid, 0, 0, 0, 0)] && place == old(place)[p := Nowhere]
                && current == old(current) && lists == old(lists)
    {
      pid := AllocatePid();
      NewProcess(current, lists, info, table, place, p, pid);
      table := table[pid := p];
      info := info[p := Info(READY, pid, 0, 0, 0, 0)];
      place := place[p := Nowhere];
    }

    /** process_inherit: a process that is not launched yet gets its parent. */
    method Inherit(parent: int, child: int)
      requires Valid() && parent in info && child in info && place[child] == Nowhere
      modifies this`info
      ensures Valid() && info == old(info)[child := old(info)[child].(ppid := old(info)[parent].pid)]
    {
      ChangeNowhere(current, lists, info, table, place, child, info[child].(ppid := info[parent].pid));
      info := info[child := info[child].(ppid := info[parent].pid)];
    }

    /** process_launch */
    method Launch(p: int)
      requires Valid() && p in info && place[p] == Nowhere
      modifies this`lists, this`place, this`info
      ensures Valid() && place == old(place)[p := On(ReadyList)] && lists == Push(old(lists), ReadyList, p)
      ensures info == old(info)[p := old(info)[p].(state := READY)]
    {
      assert PlaceOk(current, lists, place, p);
      ToReady(current, lists, info, table, place, p, info[p].(state := READY));
      lists := Push(lists, ReadyList, p);
      // a new process has this state from the start
      info := info[p := info[p].(state := READY)];
      place := place[p := On(ReadyList)];
    }

    /** The end of process_switch: the first process that is ready runs; while there is none, the
        machine waits for an interrupt. */
    method Dispatch()
      requires Valid() && current == 0
      modifies this`current, this`lists, this`place, this`info
      ensures Valid()
      ensures ListOf(old(lists), ReadyList) == [] ==> unchanged(this)
      ensures ListOf(old(lists), ReadyList) != [] ==>
                && current == ListOf(old(lists), ReadyList)[0] && lists == RemoveAt(old(lists), ReadyList, 0)
                && place == old(place)[current := Running] && current in old(info)
                   && info == old(info)[current := old(info)[current].(state := RUNNING)]
    {
      if ListOf(lists, ReadyList) != [] {
        var p := ListOf(lists, ReadyList)[0];
        RunNext(lists, info, table, place);
        current := p;
        lists := RemoveAt(lists, ReadyList, 0);
        info := info[p := info[p].(state := RUNNING)];
        place := place[p := Running];
      }
    }

    /** process_switch for a process that stays ready: process_yield and process_preempt. */
    method Yield()
      requires Valid() && current != 0
      modifies this`current, this`lists, this`place, this`info
      ensures Valid() && (forall l :: l != ReadyList ==> ListOf(lists, l) == ListOf(old(lists), l))
      ensures NextRuns(ListOf(old(lists), ReadyList) + [old(current)], current, ListOf(lists, ReadyList))
      ensures Same(old(info), info)
    {
      assert PlaceOk(current, lists, place, current) && current in place.Keys;
      var x := info[current].(state := READY);
      ToReady(current, lists, info, table, place, current, x);
      lists, info, place := Push(lists, ReadyList, current), info[current := x], place[current := On(ReadyList)];
      current := 0;
      Dispatch();
    }

    /** process_wait: the running process goes to the tail of wait queue q. */
    method Wait(q: nat)
      requires Valid() && current != 0
      requires q == 0 ==> forall c :: c in ListOf(lists, GraveList) ==> !Awaits(info, current, c)
      modifies this`current, this`lists, this`place, this`info
      ensures Valid() && Same(old(info), info)
      ensures ListOf(lists, Waiters(q)) == ListOf(old(lists), Waiters(q)) + [old(current)]
      ensures forall l :: l != ReadyList && l != Waiters(q) ==> ListOf(lists, l) == ListOf(old(lists), l)
      ensures NextRuns(ListOf(old(lists), ReadyList), current, ListOf(lists, ReadyList))
    {
      assert PlaceOk(current, lists, place, current) && current in place.Keys;
      var x := info[current].(state := BLOCKED);
      ToWait(current, lists, info, table, place, q, x);
      lists, info, place := Push(lists, Waiters(q), current), info[current := x], place[current := On(Waiters(q))];
      current := 0;
      Dispatch();
    }

    /** process_wakeup: the process that has waited longest on q gets ready. */
    method Wakeup(q: nat)
      requires Valid()
      modifies this`lists, this`place, this`info
      ensures Valid() && Same(old(info), info)
      ensures ListOf(old(lists), Waiters(q)) == [] ==> unchanged(this)
      ensures ListOf(old(lists), Waiters(q)) != [] ==>
                && ListOf(lists, Waiters(q)) == ListOf(old(lists), Waiters(q))[1..]
                && ListOf(lists, ReadyList) == ListOf(old(lists), ReadyList) + [ListOf(old(lists), Waiters(q))[0]]
      ensures forall l :: l != ReadyList && l != Waiters(q) ==> ListOf(lists, l) == ListOf(old(lists), l)
    {
      if ListOf(lists, Waiters(q)) != [] {
        var p := ListOf(lists, Waiters(q))[0];
        Woken(current, lists, info, table, place, Waiters(q), 0, 0);
        lists := RemoveAt(lists, Waiters(q), 0);
        info := info[p := info[p].(state := READY)];
        lists := Push(lists, ReadyList, p);
        place := place[p := On(ReadyList)];
      }
    }

    /** process_wakeup_all */
    method WakeupAll(q: nat)
      requires Valid()
      modifies this`lists, this`place, this`info
      ensures Valid() && Same(old(info), info)
      ensures ListOf(lists, Waiters(q)) == []
              && ListOf(lists, ReadyList) == ListOf(old(lists), ReadyList) + ListOf(old(lists), Waiters(q))
      ensures forall l :: l != ReadyList && l != Waiters(q) ==> ListOf(lists, l) == ListOf(old(lists), l)
    {
      while ListOf(lists, Waiters(q)) != []
        invariant Valid() && Same(old(info), info)
        invariant ListOf(lists, ReadyList) + ListOf(lists, Waiters(q)) == ListOf(old(lists), ReadyList)
                  + ListOf(old(lists), Waiters(q))
        invariant forall l :: l != ReadyList && l != Waiters(q) ==> ListOf(lists, l) == ListOf(old(lists), l)
        decreases |ListOf(lists, Waiters(q))|
      {
        ghost var info0 := info;
        Wakeup(q);
        SameTwice(old(info), info0, info);
      }
    }

    /** process_wakeup_parent: the parent that waits for the running process, if there is one, gets
        ready and waits for nobody any more. */
    method WakeupParent()
      requires Valid() && current != 0
      modifies this`lists, this`place, this`info
      ensures Valid() && current in info && SameAs(old(info), info, current) && info.Keys == old(info).Keys
      ensures forall w :: w in ListOf(lists, WATCHERS) ==> !Awaits(info, w, current)
      ensures forall l :: l != ReadyList && l != WATCHERS ==> ListOf(lists, l) == ListOf(old(lists), l)
      ensures Woke(old(lists), lists, old(info), info, current)
              && ListOf(old(lists), ReadyList) <= ListOf(lists, ReadyList)
      ensures info[current] == old(info)[current] && place[current] == Running
    {
      assert PlaceOk(current, lists, place, current) && current in place.Keys;
      var i := 0;
      while i < |ListOf(lists, WATCHERS)|
        invariant Valid() && i <= |ListOf(lists, WATCHERS)| && unchanged(this)
        invariant forall j :: 0 <= j < i ==> !Awaits(info, ListOf(lists, WATCHERS)[j], current)
      {
        var p := ListOf(lists, WATCHERS)[i];
        WatcherIs(current, lists, info, table, place, i);
        if info[p].pid == info[current].ppid && (info[p].waitingFor == 0 || info[p].waitingFor == info[current].pid) {
          Woken(current, lists, info, table, place, WATCHERS, i, 0);
          OneParent(current, lists, info, table, place, i);
          info := info[p := info[p].(state := READY, waitingFor := 0)];
          lists := RemoveAt(lists, WATCHERS, i);
          lists := Push(lists, ReadyList, p);
          place := place[p := On(ReadyList)];
          assert Moved(old(lists), lists, old(info), info, current, i);
          return;
        }
        i := i + 1;
      }
    }

    /** process_switch for a process that goes to the grave. */
    method Bury()
      requires Valid() && current != 0 && forall w :: w in ListOf(lists, WATCHERS) ==> !Awaits(info, w, current)
      modifies this`current, this`lists, this`place, this`info
      ensures Valid() && ListOf(lists, GraveList) == ListOf(old(lists), GraveList) + [old(current)]
              && Same(old(info), info)
      ensures forall l: ListId :: l.Waiters? ==> ListOf(lists, l) == ListOf(old(lists), l)
      ensures NextRuns(ListOf(old(lists), ReadyList), current, ListOf(lists, ReadyList))
      ensures old(current) in old(info) && info[old(current)] == old(info)[old(current)].(state := GRAVE)
    {
      assert PlaceOk(current, lists, place, current) && current in place.Keys;
      var x := info[current].(state := GRAVE);
      ToGrave(current, lists, info, table, place, x);
      lists, info, place := Push(lists, GraveList, current), info[current := x], place[current := On(GraveList)];
      assert ListOk(lists, place, GraveList) && ListOk(lists, place, ReadyList);
      current := 0;
      Dispatch();
    }

    /** process_exit: the parent is woken if it waits for this process, which goes to the grave. */
    method Exit(code: int)
      requires Valid() && current != 0
      modifies this`current, this`lists, this`place, this`info
      ensures Valid() && ListOf(lists, GraveList) == ListOf(old(lists), GraveList) + [old(current)]
      ensures forall l: ListId :: l.Waiters? && l != WATCHERS ==> ListOf(lists, l) == ListOf(old(lists), l)
      ensures var parent := ParentOf(old(info), ListOf(old(lists), WATCHERS), old(current));
              && NextRuns(ListOf(old(lists), ReadyList) + parent, current, ListOf(lists, ReadyList))
              && Identities(old(info), info, old(current), parent)
      ensures var ws := ListOf(old(lists), WATCHERS);
              var i := FirstAwaiting(old(info), ws, old(current));
              ListOf(lists, WATCHERS) == if i < |ws| then ws[..i] + ws[i + 1..] else ws
      ensures old(current) in info && info[old(current)].exitcode == code && info[old(current)].exitreason == 0
      ensures forall w :: w in ListOf(old(lists), WATCHERS) && Awaits(old(info), w, old(current)) ==>
                w == current || w in ListOf(lists, ReadyList)
      // its parent finds it in the grave from now on
      ensures forall w :: w in info && info[w].pid == info[old(current)].ppid ==> Answers(info, w, 0, old(current))
    {
      assert PlaceOk(current, lists, place, current) && current in place.Keys;
      var x := info[current].(exitcode := code, exitreason := 0);
      ChangeRunning(current, lists, info, table, place, x);
      info := info[current := x];
      ghost var lists0, info0, dying := lists, info, current;
      WakeupParent();
      AwakeParents(lists0, lists, info0, info, dying);
      SameParent(old(info), info0, ListOf(lists0, WATCHERS), dying);
      ghost var info1 := info;
      Bury();
      ExitKeeps(old(info), info0, info1, info, lists0, dying);
    }

    /** One round of process_wait_child: the pid and the exit code of the first dead process that
        answers it, or else 0, and the running process waits. A wait for one pid is answered by any dead child as well,
            and
        by a dead process with that pid that is no child: it is answered with the pid asked for
        exactly when that process is in the grave and no child of the caller lies before it. */
    method WaitChild(pid: nat) returns (found: nat, exitcode: int, exitreason: int)
      requires Valid() && current != 0
      modifies this`current, this`lists, this`place, this`info
      ensures Valid()
      ensures found != 0 ==> unchanged(this) && exists i: nat ::
                FirstAnswer(info, ListOf(lists, GraveList), current, pid, i)
                && var dead := info[ListOf(lists, GraveList)[i]];
                   dead.pid == found && dead.exitcode == exitcode && dead.exitreason == exitreason
      ensures pid != 0 ==> (found == pid <==> Due(old(info), ListOf(old(lists), GraveList), old(current), pid))
      ensures found == 0 ==> forall c ::
                c in ListOf(old(lists), GraveList) ==> !Answers(old(info), old(current), pid, c)
      ensures found == 0 ==> ListOf(lists, WATCHERS) == ListOf(old(lists), WATCHERS) + [old(current)]
                             && old(current) in old(info)
                             && Same(old(info)[old(current) := old(info)[old(current)].(waitingFor := pid)], info)
      ensures found == 0 ==>
                && (forall l :: l != ReadyList && l != WATCHERS ==> ListOf(lists, l) == ListOf(old(lists), l))
                && NextRuns(ListOf(old(lists), ReadyList), current, ListOf(lists, ReadyList))
    {
      assert PlaceOk(current, lists, place, current) && current in place.Keys;
      var i := 0;
      while i < |ListOf(lists, GraveList)|
        invariant i <= |ListOf(lists, GraveList)| && forall j ::
                    0 <= j < i ==> !Answers(info, current, pid, ListOf(lists, GraveList)[j])
      {
        var p := ListOf(lists, GraveList)[i];
        assert ListOk(lists, place, GraveList) && p in place.Keys && PidOk(info, table, p);
        if (pid != 0 && info[p].pid == pid) || info[p].ppid == info[current].pid {
          AnswerIsDue(current, lists, info, table, place, current, pid, i);
          return info[p].pid, info[p].exitcode, info[p].exitreason;
        }
        i := i + 1;
      }
      var x := info[current].(waitingFor := pid);
      ChangeRunning(current, lists, info, table, place, x);
      ghost var waiter := current;
      NoAnswer(lists, info, place, current, pid, x);
      info := info[current := x];
      ghost var info1 := info;
      Wait(0);
      assert SameAs(info1, info, waiter) && waiter in info1.Keys;
      found, exitcode, exitreason := 0, 0, 0;
    }

    /** process_reap */
    method Reap(pid: nat) returns (r: int)
      requires Valid()
      modifies this`lists, this`place, this`info, this`table
      ensures Valid() && current == old(current) && (r == 0 || r == 1)
      ensures r == 1 ==> unchanged(this) && forall c ::
                c in ListOf(lists, GraveList) ==> c in info && info[c].pid != pid
      ensures r == 0 ==> exists i: nat ::
                i < |ListOf(old(lists), GraveList)| && Reaped(old(lists), lists, old(info), info, i)
                && old(info)[ListOf(old(lists), GraveList)[i]].pid == pid
    {
      var i := 0;
      while i < |ListOf(lists, GraveList)|
        invariant i <= |ListOf(lists, GraveList)|
        invariant forall j ::
                    0 <= j < i ==> ListOf(lists, GraveList)[j] in info && info[ListOf(lists, GraveList)[j]].pid != pid
      {
        var p := ListOf(lists, GraveList)[i];
        assert ListOk(lists, place, GraveList) && p in place.Keys;
        if info[p].pid == pid {
          Delete(i);
          return 0;
        }
        i := i + 1;
      }
      r := 1;
    }

    /** The process at place i of the grave is taken out and deleted. */
    method Delete(i: nat)
      requires Valid() && i < |ListOf(lists, GraveList)|
      modifies this`lists, this`place, this`info, this`table
      ensures Valid() && Reaped(old(lists), lists, old(info), info, i)
    {
      ghost var lists0, info0 := lists, info;
      var p := ListOf(lists, GraveList)[i];
      Gone(current, lists, info, table, place, i);
      lists := RemoveAt(lists, GraveList, i);
      table := table[info[p].pid := 0];
      info := info - {p};
      place := place - {p};
    }

    /** process_reap_all */
    method ReapAll()
      requires Valid()
      modifies this`lists, this`place, this`info, this`table
      ensures Valid() && ListOf(lists, GraveList) == [] && current == old(current)
      ensures forall l :: l != GraveList ==> ListOf(lists, l) == ListOf(old(lists), l)
      ensures forall p :: p in info <==> p in old(info) && p !in ListOf(old(lists), GraveList)
      ensures forall p :: p in info ==> info[p] == old(info)[p]
    {
      while ListOf(lists, GraveList) != []
        invariant Valid() && forall l :: l != GraveList ==> ListOf(lists, l) == ListOf(old(lists), l)
        invariant forall p :: p in info ==> p in old(info) && info[p] == old(info)[p]
        invariant forall p :: p in old(info) && p !in info ==> p in ListOf(old(lists), GraveList)
        invariant forall p :: p in info && p in ListOf(old(lists), GraveList) ==> p in ListOf(lists, GraveList)
        invariant forall p :: p in ListOf(lists, GraveList) ==> p in ListOf(old(lists), GraveList)
        decreases |ListOf(lists, GraveList)|
      {
        HeadOrRest(ListOf(lists, GraveList));
        Delete(0);
      }
    }

    /** Any run of steps keeps every process in one place, pids apart and no parent waiting for a
        child in the grave. It stops when the pids run out. */
    method Run(steps: seq<Step>) returns (ok: bool)
      requires Valid()
      modifies this
      ensures if ok then Valid() else |table| == PROCESS_MAX_PID && NoPid(table, last)
      ensures ok ==> forall p, q :: p in info && q in info && info[p].pid == info[q].pid ==> p == q
      ensures ok ==> forall w, c {:trigger Awaits(info, w, c)} ::
                w in ListOf(lists, WATCHERS) && c in ListOf(lists, GraveList) ==> !Awaits(info, w, c)
    {
      ok := true;
      var k := 0;
      while k < |steps| && ok
        invariant k <= |steps| && if ok then Valid() else |table| == PROCESS_MAX_PID && NoPid(table, last)
      {
        match steps[k] {
          case SpawnStep(p) =>
            if p != 0 && p !in info {
              var pid := Create(p);
              ok := pid != 0;
            }
          case InheritStep(parent, child) =>
            if parent in info && child in info && info[child].state == READY
            && Unlaunched(child) { Inherit(parent, child); }
          case LaunchStep(p) =>
            if p in info && Unlaunched(p) { Launch(p); }
          case DispatchStep => if current == 0 { Dispatch(); }
          case YieldStep => if current != 0 { Yield(); }
          case WaitStep(q) => if current != 0 && q != 0 { Wait(q); }
          case WakeupStep(q) => if q != 0 { Wakeup(q); }
          case WakeupAllStep(q) => if q != 0 { WakeupAll(q); }
          case ExitStep(code) => if current != 0 { Exit(code); }
          case WaitChildStep(pid) => if current != 0 { var found, code, reason := WaitChild(pid); }
          case ReapStep(pid) => var r := Reap(pid);
          case ReapAllStep => ReapAll();
        }
        k := k + 1;
      }
      if ok {
        forall p, q | p in info && q in info && p != q
          ensures info[p].pid != info[q].pid { PidsDiffer(info, table, p, q); }
      }
    }

    /** Whether a process is on no list and not running. */
    predicate Unlaunched(p: int)
      requires Valid() && p in info
      reads this
      ensures Unlaunched(p) ==> p in place && place[p] == Nowhere
    {
      assert PlaceOk(current, lists, place, p) && p in place.Keys;
      p != current && forall l :: l in lists ==> p !in lists[l]
    }
  }

  /** A step of the machine, by the running process, an interrupt or the kernel. */
  datatype Step =
    | SpawnStep(p: int)
    | InheritStep(parent: int, child: int)
    | LaunchStep(p: int)
    | DispatchStep
    | YieldStep
    | WaitStep(q: nat)
    | WakeupStep(q: nat)
    | WakeupAllStep(q: nat)
    | ExitStep(code: int)
    | WaitChildStep(pid: nat)
    | ReapStep(pid: nat)
    | ReapAllStep

  /** The dead process c answers a wait of w for a pid. */
  predicate Answers(info: map<int, Info>, w: int, pid: nat, c: int) {
    w in info && c in info && ((pid != 0 && info[c].pid == pid) || info[c].ppid == info[w].pid)
  }

  /** Place i of the grave holds the first process that answers. */
  ghost predicate FirstAnswer(info: map<int, Info>, grave: seq<int>, w: int, pid: nat, i: nat) {
    i < |grave| && Answers(info, w, pid, grave[i]) && forall j :: 0 <= j < i ==> !Answers(info, w, pid, grave[j])
  }

  /** Place k of the grave holds the process with this pid, and no child of w lies before it. */
  ghost predicate DueAt(info: map<int, Info>, grave: seq<int>, w: int, pid: nat, k: nat) {
    && k < |grave| && grave[k] in info && info[grave[k]].pid == pid && w in info
    && forall j :: 0 <= j < k && grave[j] in info ==> info[grave[j]].ppid != info[w].pid
  }

  ghost predicate Due(info: map<int, Info>, grave: seq<int>, w: int, pid: nat) {
    exists k: nat :: DueAt(info, grave, w, pid, k)
  }

  /** The first answer has the pid asked for exactly when that is due. */
  lemma AnswerIsDue(current: int, lists: Lists, info: map<int, Info>, table: seq<int>, place: map<int, Place>, w: int,
                    pid: nat, i: nat)
    requires Ok(current, lists, info, table, place) && FirstAnswer(info, ListOf(lists, GraveList), w, pid, i)
    ensures pid != 0 ==> (info[ListOf(lists, GraveList)[i]].pid == pid <==> Due(info, ListOf(lists, GraveList), w, pid))
  {
    var grave := ListOf(lists, GraveList);
    if pid != 0 {
      if info[grave[i]].pid == pid {
        assert forall j :: 0 <= j < i && grave[j] in info ==> !Answers(info, w, pid, grave[j]);
        assert DueAt(info, grave, w, pid, i);
      } else if k: nat :| DueAt(info, grave, w, pid, k) {
        assert Answers(info, w, pid, grave[k]);
      }
    }
  }

  /** Where a wait for one child is answered by another: the running process, with pid 1, asks for its
      child 2, which is ready, and its child 3 is in the grave. */
  lemma OtherChildAnswers()
    ensures var info :=
      map[10 := Info(RUNNING, 1, 0, 0, 0, 0), 20 := Info(READY, 2, 1, 0, 0, 0), 30 := Info(GRAVE, 3, 1, 0, 0, 0)];
            var lists := map[ReadyList := [20], GraveList := [30]];
            var table := seq(PROCESS_MAX_PID, i => if 1 <= i <= 3 then 10 * i else 0);
            var place := map[10 := Running, 20 := On(ReadyList), 30 := On(GraveList)];
            && Ok(10, lists, info, table, place) && FirstAnswer(info, ListOf(lists, GraveList), 10, 2, 0)
            && info[ListOf(lists, GraveList)[0]].pid == 3 && !Due(info, ListOf(lists, GraveList), 10, 2)
  {
    var info :=
      map[10 := Info(RUNNING, 1, 0, 0, 0, 0), 20 := Info(READY, 2, 1, 0, 0, 0), 30 := Info(GRAVE, 3, 1, 0, 0, 0)];
    var lists := map[ReadyList := [20], GraveList := [30]];
    var table := seq(PROCESS_MAX_PID, i => if 1 <= i <= 3 then 10 * i else 0);
    var place := map[10 := Running, 20 := On(ReadyList), 30 := On(GraveList)];
    forall l ensures ListOk(lists, place, l) {}
    forall p ensures PlaceOk(10, lists, place, p) {}
    forall p ensures PidOk(info, table, p) {}
    forall i ensures EntryOk(info, table, i) {}
  }

  lemma NoAnswer(lists: Lists, info: map<int, Info>, place: map<int, Place>, w: int, pid: nat, x: Info)
    requires w in info && x == info[w].(waitingFor := pid)
    requires forall j :: 0 <= j < |ListOf(lists, GraveList)| ==> !Answers(info, w, pid, ListOf(lists, GraveList)[j])
    ensures forall c :: c in ListOf(lists, GraveList) ==> !Awaits(info[w := x], w, c)
  {
    forall c | c in ListOf(lists, GraveList) ensures !Awaits(info[w := x], w, c) {
      var j :| 0 <= j < |ListOf(lists, GraveList)| && ListOf(lists, GraveList)[j] == c;
      assert !Answers(info, w, pid, c);
    }
  }

  /** Only the process at place i of the grave is gone. */
  ghost predicate Reaped(lists: Lists, lists': Lists, info: map<int, Info>, info': map<int, Info>, i: nat)
    requires i < |ListOf(lists, GraveList)|
  {
    var p := ListOf(lists, GraveList)[i];
    && lists' == RemoveAt(lists, GraveList, i) && p in info && info' == info - {p}
  }

  lemma Gone(current: int, lists: Lists, info: map<int, Info>, table: seq<int>, place: map<int, Place>, i: nat)
    requires Ok(current, lists, info, table, place) && i < |ListOf(lists, GraveList)|
    ensures var p := ListOf(lists, GraveList)[i];
            && p in info && info[p].pid < |table|
            && Ok(current, RemoveAt(lists, GraveList, i), info - {p}, table[info[p].pid := 0], place - {p})
  {
    var p := ListOf(lists, GraveList)[i];
    assert ListOk(lists, place, GraveList) && p in place.Keys && PidOk(info, table, p)
           && PlaceOk(current, lists, place, p);
    var lists', info', table', place', place1 := RemoveAt(lists, GraveList, i), info - {p}, table[info[p].pid := 0],
        place - {p}, place[p := Nowhere];
    RemovePlaced(current, lists, place, GraveList, i);
    Elsewhere(current, lists, place, GraveList, i, GraveList);
    forall l ensures ListOk(lists', place', l) {
      assert ListOk(lists', place1, l);
      assert ListOk(lists, place, l);
    }
    forall q ensures PlaceOk(current, lists', place', q) { assert PlaceOk(current, lists', place1, q); }
    forall q ensures PidOk(info', table', q) { assert PidOk(info, table, q); }
    forall j ensures EntryOk(info', table', j) { assert EntryOk(info, table, j); }
    forall q ensures StateOk(info', place', q) { assert StateOk(info, place, q); }
    Elsewhere(current, lists, place, GraveList, i, WATCHERS);
    FewerForgotten(lists, lists', info, info');
  }

  lemma HeadOrRest(s: seq<int>)
    ensures forall p :: p in s ==> p == s[0] || p in s[1..]
    ensures s != [] ==> s[..0] + s[1..] == s[1..]
  {
    forall p | p in s ensures p == s[0] || p in s[1..] { assert s == [s[0]] + s[1..]; }
  }

  lemma SameTwice(a: map<int, Info>, b: map<int, Info>, c: map<int, Info>)
    requires Same(a, b) && Same(b, c)
    ensures Same(a, c)
  {
    forall p ensures SameAs(a, c, p) {
      assert SameAs(a, b, p) && SameAs(b, c, p);
      assert p in a.Keys <==> p in b.Keys;
    }
  }

  lemma WatcherIs(current: int, lists: Lists, info: map<int, Info>, table: seq<int>, place: map<int, Place>, i: nat)
    requires Ok(current, lists, info, table, place) && i < |ListOf(lists, WATCHERS)|
    ensures ListOf(lists, WATCHERS)[i] in info
  {
    assert ListOk(lists, place, WATCHERS);
    assert ListOf(lists, WATCHERS)[i] in place.Keys;
  }

  /** Only one process has the pid that is the running one's parent. */
  lemma OneParent(current: int, lists: Lists, info: map<int, Info>, table: seq<int>, place: map<int, Place>, i: nat)
    requires Ok(current, lists, info, table, place) && i < |ListOf(lists, WATCHERS)|
             && Awaits(info, ListOf(lists, WATCHERS)[i], current)
    ensures forall w :: w in ListOf(RemoveAt(lists, WATCHERS, i), WATCHERS) ==> !Awaits(info, w, current)
  {
    var p := ListOf(lists, WATCHERS)[i];
    Elsewhere(current, lists, place, WATCHERS, i, WATCHERS);
    forall w | w in ListOf(RemoveAt(lists, WATCHERS, i), WATCHERS) ensures !Awaits(info, w, current) {
      if w in info { PidsDiffer(info, table, w, p); }
    }
  }

  /** The first place among the watchers of one that waits for c; past the end if there is none. */
  function FirstAwaiting(info: map<int, Info>, ws: seq<int>, c: int): (i: nat)
    ensures i <= |ws| && (forall j :: 0 <= j < i ==> !Awaits(info, ws[j], c)) && (i < |ws| ==> Awaits(info, ws[i], c))
  {
    if ws == [] || Awaits(info, ws[0], c) then 0 else 1 + FirstAwaiting(info, ws[1..], c)
  }

  /** The watcher, if any, that waits for c. */
  function ParentOf(info: map<int, Info>, ws: seq<int>, c: int): seq<int> {
    var i := FirstAwaiting(info, ws, c);
    if i < |ws| then [ws[i]] else []
  }

  /** The effect of waking the parent: the one watcher that waits for c, if any, has moved. */
  ghost predicate Woke(lists: Lists, lists': Lists, info: map<int, Info>, info': map<int, Info>, c: int) {
    var ws := ListOf(lists, WATCHERS);
    var i := FirstAwaiting(info, ws, c);
    if i < |ws| then Moved(lists, lists', info, info', c, i)
    else
      ListOf(lists', WATCHERS) == ws && ListOf(lists', ReadyList) == ListOf(lists, ReadyList) && info' == info
  }

  ghost predicate Moved(lists: Lists, lists': Lists, info: map<int, Info>, info': map<int, Info>, c: int, i: nat)
    requires i < |ListOf(lists, WATCHERS)|
  {
    var ws := ListOf(lists, WATCHERS);
    && Awaits(info, ws[i], c) && ListOf(lists', WATCHERS) == ws[..i] + ws[i + 1..]
    && ListOf(lists', ReadyList) == ListOf(lists, ReadyList) + [ws[i]]
    && ws[i] in info && info' == info[ws[i] := info[ws[i]].(state := READY, waitingFor := 0)]
  }

  /** Every parent that waited for c is ready now. */
  lemma AwakeParents(lists: Lists, lists': Lists, info: map<int, Info>, info': map<int, Info>, c: int)
    requires Woke(lists, lists', info, info', c) && c in info && c in info' && info'[c] == info[c]
    requires forall w :: w in ListOf(lists', WATCHERS) ==> !Awaits(info', w, c)
    ensures forall w :: w in ListOf(lists, WATCHERS) && Awaits(info, w, c) ==> w in ListOf(lists', ReadyList)
  {
    var ws := ListOf(lists, WATCHERS);
    forall w | w in ws && Awaits(info, w, c) ensures w in ListOf(lists', ReadyList) {
      var k: nat :| k < |ws| && ws[k] == w;
      var i := FirstAwaiting(info, ws, c);
      if k != i { InRest(ws, i, k); }
    }
  }

  lemma InRest(s: seq<int>, i: nat, k: nat)
    requires i < |s| && k < |s| && k != i
    ensures s[k] in s[..i] + s[i + 1..]
  {
    assert (s[..i] + s[i + 1..])[if k < i then k else k - 1] == s[k];
  }

  lemma ChangeRunning(current: int, lists: Lists, info: map<int, Info>, table: seq<int>, place: map<int, Place>,
                      x: Info)
    requires Ok(current, lists, info, table, place) && current in info && current in place && place[current] == Running
    requires x.pid == info[current].pid && x.state == info[current].state
    ensures Ok(current, lists, info[current := x], table, place)
  {
    var info' := info[current := x];
    SameNumbers(info, table, current, x);
    forall q ensures StateOk(info', place, q) { assert StateOk(info, place, q); }
    assert ListOk(lists, place, WATCHERS) && ListOk(lists, place, GraveList);
    FewerForgotten(lists, lists, info, info');
  }

  lemma ToGrave(current: int, lists: Lists, info: map<int, Info>, table: seq<int>, place: map<int, Place>, x: Info)
    requires Ok(current, lists, info, table, place) && current != 0 && current in info && current in place
             && place[current] == Running
    requires x == info[current].(state := GRAVE) && forall w ::
               w in ListOf(lists, WATCHERS) ==> !Awaits(info, w, current)
    ensures Ok(0, Push(lists, GraveList, current), info[current := x], table, place[current := On(GraveList)])
  {
    var lists', info' := Push(lists, GraveList, current), info[current := x];
    assert ListOk(lists, place, WATCHERS) && ListOk(lists, place, GraveList);
    forall w, c | w in ListOf(lists', WATCHERS) && c in ListOf(lists', GraveList) ensures !Awaits(info', w, c) {
      assert !Awaits(info, w, c);
    }
    Enlist(current, lists, info, table, place, GraveList, current, x);
  }

  /** Every process keeps its pid and its parent, every process but the one that exits its exit code
      and reason, and every process but the parent that is woken what it waits for. */
  ghost predicate Identities(info: map<int, Info>, info': map<int, Info>, dying: int, parent: seq<int>) {
    info'.Keys == info.Keys && forall p {:trigger KeepsIdentity(info, info', dying, parent, p)} ::
      KeepsIdentity(info, info', dying, parent, p)
  }

  ghost predicate KeepsIdentity(info: map<int, Info>, info': map<int, Info>, dying: int, parent: seq<int>, p: int) {
    p in info && p in info' ==>
      && info'[p].pid == info[p].pid && info'[p].ppid == info[p].ppid
      && (p != dying ==> info'[p].exitcode == info[p].exitcode && info'[p].exitreason == info[p].exitreason)
      && info'[p].waitingFor == if p in parent then 0 else info[p].waitingFor
  }

  lemma ExitKeeps(info: map<int, Info>, info0: map<int, Info>, info1: map<int, Info>, info2: map<int, Info>,
                  lists: Lists, dying: int)
    requires dying in info && exists x: Info ::
               x == info[dying].(exitcode := x.exitcode, exitreason := x.exitreason) && info0 == info[dying := x]
    requires Same(info1, info2) && info1.Keys == info0.Keys
    requires var ws := ListOf(lists, WATCHERS);
             var i := FirstAwaiting(info, ws, dying);
             if i < |ws| then ws[i] in info0 && info1 == info0[ws[i] := info0[ws[i]].(state := READY, waitingFor := 0)]
             else info1 == info0
    ensures Identities(info, info2, dying, ParentOf(info, ListOf(lists, WATCHERS), dying))
  {
    var parent := ParentOf(info, ListOf(lists, WATCHERS), dying);
    forall p ensures KeepsIdentity(info, info2, dying, parent, p) {
      assert SameAs(info1, info2, p);
      assert p in info.Keys <==> p in info1.Keys;
    }
  }

  /** An exit code does not change who waits for whom. */
  lemma SameParent(info: map<int, Info>, info0: map<int, Info>, ws: seq<int>, c: int)
    requires forall w :: Awaits(info0, w, c) == Awaits(info, w, c)
    ensures FirstAwaiting(info0, ws, c) == FirstAwaiting(info, ws, c)
  {
  }

  /** The first of the processes that are ready runs, and the rest stay ready. */
  predicate NextRuns(ready: seq<int>, current: int, rest: seq<int>) {
    if ready == [] then current == 0 && rest == [] else current == ready[0] && rest == ready[1..]
  }

  /** Nothing but the states of processes has changed. */
  ghost predicate Same(info: map<int, Info>, info': map<int, Info>) {
    info'.Keys == info.Keys && forall p {:trigger SameAs(info, info', p)} :: SameAs(info, info', p)
  }

  ghost predicate SameAs(info: map<int, Info>, info': map<int, Info>, p: int) {
    p in info && p in info' ==> info'[p] == info[p].(state := info'[p].state)
  }

  lemma ToWait(current: int, lists: Lists, info: map<int, Info>, table: seq<int>, place: map<int, Place>, q: nat,
               x: Info)
    requires Ok(current, lists, info, table, place) && current != 0 && current in info && current in place
             && place[current] == Running
    requires x == info[current].(state := BLOCKED)
    requires q == 0 ==> forall c :: c in ListOf(lists, GraveList) ==> !Awaits(info, current, c)
    ensures Ok(0, Push(lists, Waiters(q), current), info[current := x], table, place[current := On(Waiters(q))])
  {
    var lists', info' := Push(lists, Waiters(q), current), info[current := x];
    assert ListOk(lists, place, WATCHERS) && ListOk(lists, place, GraveList);
    forall w, c | w in ListOf(lists', WATCHERS) && c in ListOf(lists', GraveList) ensures !Awaits(info', w, c) {
      assert !Awaits(info, w, c);
    }
    Enlist(current, lists, info, table, place, Waiters(q), current, x);
  }

  /** A process taken off a wait queue gets ready. */
  lemma Woken(current: int, lists: Lists, info: map<int, Info>, table: seq<int>, place: map<int, Place>, l: ListId,
              i: nat, w: nat)
    requires Ok(current, lists, info, table, place) && l.Waiters? && i < |ListOf(lists, l)|
    ensures var p := ListOf(lists, l)[i];
            && p in info && p != current
            && Ok(current, Push(RemoveAt(lists, l, i), ReadyList, p), info[p := info[p].(state := READY)], table,
                  place[p := On(ReadyList)])
            && Ok(current, Push(RemoveAt(lists, l, i), ReadyList, p),
                  info[p := info[p].(state := READY, waitingFor := w)], table, place[p := On(ReadyList)])
  {
    var p := ListOf(lists, l)[i];
    assert ListOk(lists, place, l) && PlaceOk(current, lists, place, p) && p in place.Keys;
    WokenAs(current, lists, info, table, place, l, i, info[p].(state := READY));
    WokenAs(current, lists, info, table, place, l, i, info[p].(state := READY, waitingFor := w));
  }

  lemma WokenAs(current: int, lists: Lists, info: map<int, Info>, table: seq<int>, place: map<int, Place>, l: ListId,
                i: nat, x: Info)
    requires Ok(current, lists, info, table, place) && l.Waiters? && i < |ListOf(lists, l)|
    requires var p := ListOf(lists, l)[i];
             p in info && p in place && p != current && x.pid == info[p].pid && x.state == READY
    ensures var p := ListOf(lists, l)[i];
            Ok(current, Push(RemoveAt(lists, l, i), ReadyList, p), info[p := x], table, place[p := On(ReadyList)])
  {
    var p := ListOf(lists, l)[i];
    var lists1, info1, place1 := RemoveAt(lists, l, i), info[p := x], place[p := Nowhere];
    Elsewhere(current, lists, place, l, i, WATCHERS);
    Elsewhere(current, lists, place, l, i, GraveList);
    FewerForgotten(lists, lists1, info, info1);
    Delist(current, lists, info, table, place, l, i, x);
    ToReady(current, lists1, info1, table, place1, p, x);
    assert info1[p := x] == info[p := x] && place1[p := On(ReadyList)] == place[p := On(ReadyList)];
  }

  lemma NewProcess(current: int, lists: Lists, info: map<int, Info>, table: seq<int>, place: map<int, Place>, p: int,
                   pid: nat)
    requires Ok(current, lists, info, table, place) && p != 0 && p !in info
    ensures 1 <= pid < PROCESS_MAX_PID && table[pid] == 0 ==>
              Ok(current, lists, info[p := Info(READY, pid, 0, 0, 0, 0)], table[pid := p], place[p := Nowhere])
  {
    assert p !in place.Keys;
    if 1 <= pid < PROCESS_MAX_PID && table[pid] == 0 {
      var info', table', place' := info[p := Info(READY, pid, 0, 0, 0, 0)], table[pid := p], place[p := Nowhere];
      forall l ensures ListOk(lists, place', l) { assert ListOk(lists, place, l); }
      forall q ensures PlaceOk(current, lists, place', q) { assert PlaceOk(current, lists, place, q); }
      forall q ensures PidOk(info', table', q) {
        assert PidOk(info, table, q) && PlaceOk(current, lists, place, q);
        assert q in place.Keys <==> q in info.Keys;
      }
      forall i ensures EntryOk(info', table', i) { assert EntryOk(info, table, i); }
      forall q ensures StateOk(info', place', q) { assert StateOk(info, place, q); }
      assert ListOk(lists, place, WATCHERS) && ListOk(lists, place, GraveList);
      FewerForgotten(lists, lists, info, info');
    }
  }

  lemma ChangeNowhere(current: int, lists: Lists, info: map<int, Info>, table: seq<int>, place: map<int, Place>, p: int,
                      x: Info)
    requires Ok(current, lists, info, table, place) && p in info && p in place && place[p] == Nowhere
             && x.pid == info[p].pid
    ensures Ok(current, lists, info[p := x], table, place)
  {
    var info' := info[p := x];
    SameNumbers(info, table, p, x);
    forall q ensures StateOk(info', place, q) { assert StateOk(info, place, q); }
    assert ListOk(lists, place, WATCHERS) && ListOk(lists, place, GraveList);
    FewerForgotten(lists, lists, info, info');
  }

  /** A process that is on no list becomes ready. */
  lemma ToReady(current: int, lists: Lists, info: map<int, Info>, table: seq<int>, place: map<int, Place>, p: int,
                x: Info)
    requires Ok(current, lists, info, table, place) && p in info && p in place && !place[p].On? && x.pid == info[p].pid
             && x.state == READY
    ensures Ok(if p == current then 0 else current, Push(lists, ReadyList, p), info[p := x], table,
               place[p := On(ReadyList)])
  {
    assert ListOk(lists, place, WATCHERS) && ListOk(lists, place, GraveList);
    FewerForgotten(lists, Push(lists, ReadyList, p), info, info[p := x]);
    Enlist(current, lists, info, table, place, ReadyList, p, x);
  }

  lemma RunNext(lists: Lists, info: map<int, Info>, table: seq<int>, place: map<int, Place>)
    requires Ok(0, lists, info, table, place) && ListOf(lists, ReadyList) != []
    ensures var p := ListOf(lists, ReadyList)[0];
            && p in info && p != 0
            && Ok(p, RemoveAt(lists, ReadyList, 0), info[p := info[p].(state := RUNNING)], table, place[p := Running])
  {
    var p := ListOf(lists, ReadyList)[0];
    assert ListOk(lists, place, WATCHERS) && ListOk(lists, place, GraveList) && ListOk(lists, place, ReadyList)
           && PlaceOk(0, lists, place, p);
    assert p in place.Keys;
    var x := info[p].(state := RUNNING);
    var lists1, info1, place1 := RemoveAt(lists, ReadyList, 0), info[p := x], place[p := Nowhere];
    FewerForgotten(lists, lists1, info, info1);
    Delist(0, lists, info, table, place, ReadyList, 0, x);
    RunPlaced(lists1, place1, p);
    assert place1[p := Running] == place[p := Running];
    var place2 := place[p := Running];
    forall q ensures StateOk(info1, place2, q) { assert StateOk(info1, place1, q); }
  }
}
