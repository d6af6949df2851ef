// The thread pool of pthread_pool.cpp between construction and shutdown. What runs under
// mutexPool is one step, except that the manager holds it while it fills the slots.

module ThreadPool {
  // A function pointer and its argument.
  datatype Task = Task(fn: nat, arg: nat)

  // A worker: about to lock the pool, in pthread_cond_wait, with task number n before,
  // in, and after the task body, or past its exit decision but still in its slot.
  datatype Pc = Ready | Waiting | Taken(n: nat) | Running(n: nat) | Leaving

  // The manager: outside, or at slot i with the mutex held.
  datatype Manager = Outside | Filling(i: nat)

  // `slots` is threadID: 0 marks a free slot. `pushed`, `taken` and `done` are history:
  // all tasks in the order they were pushed, those taken, and the numbers of those run.
  datatype State = State(queue: seq<Task>, slots: seq<nat>, threads: map<nat, Pc>, manager: Manager,
                            busyNum: int, liveNum: int, exitNum: int,
                            pushed: seq<Task>, taken: seq<Task>, done: set<nat>)

  // maxNum
  function Max(s: State): nat {
    |s.slots|
  }

  ghost predicate Init(s: State) {
    && s.queue == [] && s.pushed == [] && s.taken == [] && s.done == {} && s.threads == map[] && s.manager == Outside
    && s.busyNum == s.liveNum == s.exitNum == 0 && forall i :: 0 <= i < |s.slots| ==> s.slots[i] == 0
  }

  // -------- steps --------

  ghost predicate Push(s: State, s': State, task: Task) {
    s.manager == Outside && s' == s.(queue := s.queue + [task], pushed := s.pushed + [task])
  }

  // With the mutex held: a task is taken, or the worker waits (again).
  function Proceed(s: State, w: nat): State {
    if s.queue == [] then s.(threads := s.threads[w := Waiting])
    else s.(queue := s.queue[1..], taken := s.taken + [s.queue[0]], threads := s.threads[w := Taken(|s.taken|)])
  }

  ghost predicate Work(s: State, s': State, w: nat)
    requires w in s.threads
  {
    match s.threads[w]
    case Ready => s.manager == Outside && s' == Proceed(s, w)
    case Waiting =>
      // a signal, or a spurious wakeup
      s.manager == Outside &&
      s' == if s.exitNum > 0
            then s.(exitNum := s.exitNum - 1, liveNum := s.liveNum - 1, threads := s.threads[w := Leaving])
            else Proceed(s, w)
    case Taken(n) => s' == s.(busyNum := s.busyNum + 1, threads := s.threads[w := Running(n)])
    case Running(n) =>
      s' == s.(busyNum := s.busyNum - 1, threads := s.threads[w := Ready], done := s.done + {n})
    case Leaving =>
      // exitThread: the slot with the worker's own id is cleared
      exists i :: 0 <= i < |s.slots| && s.slots[i] == w
                  && s' == s.(slots := s.slots[i := 0], threads := s.threads - {w})
  }

  // The manager takes the mutex and goes over the slots; a thread is created in every
  // free one, unless the creation fails.
  ghost predicate Manage(s: State, s': State) {
    match s.manager
    case Outside => s' == s.(manager := Filling(0)) || s' == s.(exitNum := s.exitNum + 1)
    case Filling(i) =>
      if i >= |s.slots| then s' == s.(manager := Outside)
      else if s.slots[i] != 0 then s' == s.(manager := Filling(i + 1))
      else s' == s.(manager := Outside) || exists w: nat :: Created(s, s', i, w)
  }

  // The new thread has an id of its own.
  ghost predicate Created(s: State, s': State, i: nat, w: nat)
    requires i < |s.slots|
  {
    && w != 0 && w !in s.threads
    && s' == s.(manager := Filling(i + 1), slots := s.slots[i := w], threads := s.threads[w := Ready],
                liveNum := s.liveNum + 1)
  }

  ghost predicate Next(s: State, s': State) {
    || (exists task :: Push(s, s', task))
    || (exists w :: w in s.threads && Work(s, s', w))
    || Manage(s, s')
  }

  // -------- what the slots hold --------

  datatype Use = Free | Used(pc: Pc)

  function Uses(s: State): (u: seq<Use>)
    ensures |u| == |s.slots|
  {
    seq(|s.slots|, i requires 0 <= i < |s.slots| =>
          if s.slots[i] in s.threads then Used(s.threads[s.slots[i]]) else Free)
  }

  predicate IsLive(u: Use) {
    u.Used? && u.pc != Leaving
  }

  predicate IsLeaving(u: Use) {
    u == Used(Leaving)
  }

  predicate IsBusy(u: Use) {
    u.Used? && u.pc.Running?
  }

  function Count(u: seq<Use>, f: Use -> bool): (n: nat)
    ensures n <= |u|
  {
    if |u| == 0 then 0 else Count(u[..|u| - 1], f) + if f(u[|u| - 1]) then 1 else 0
  }

  lemma {:induction false} Changed(u: seq<Use>, f: Use -> bool, i: nat, x: Use)
    requires i < |u|
    ensures Count(u[i := x], f) == Count(u, f) - (if f(u[i]) then 1 else 0) + (if f(x) then 1 else 0)
  {
    var n := |u| - 1;
    if i < n {
      assert u[i := x][..n] == u[..n][i := x];
      Changed(u[..n], f, i, x);
    } else {
      assert u[i := x][..n] == u[..n];
    }
  }

  lemma {:induction false} NoneCounted(u: seq<Use>, f: Use -> bool)
    requires forall i :: 0 <= i < |u| ==> !f(u[i])
    ensures Count(u, f) == 0
  {
    if |u| > 0 {
      NoneCounted(u[..|u| - 1], f);
    }
  }

  lemma {:induction false} Together(u: seq<Use>)
    ensures Count(u, IsLive) + Count(u, IsLeaving) <= |u| && Count(u, IsBusy) <= Count(u, IsLive)
  {
    if |u| > 0 {
      Together(u[..|u| - 1]);
    }
  }

  // -------- the invariant --------

  // Every thread has one slot, and every slot in use has its thread.
  ghost predicate Seated(s: State) {
    && 0 !in s.threads
    && (forall i {:trigger s.slots[i]} :: 0 <= i < |s.slots| && s.slots[i] != 0 ==> s.slots[i] in s.threads)
    && (forall i, j :: 0 <= i < j < |s.slots| && s.slots[i] != 0 ==> s.slots[i] != s.slots[j])
    && (forall w :: w in s.threads ==> w in s.slots)
  }

  // liveNum counts the slots in use but for those of leaving workers, busyNum the workers
  // in a task body.
  ghost predicate Counted(s: State) {
    s.liveNum == Count(Uses(s), IsLive) && s.busyNum == Count(Uses(s), IsBusy) && s.exitNum >= 0
  }

  // The pushed tasks are the taken ones followed by the queued ones.
  ghost predicate InOrder(s: State) {
    s.pushed == s.taken + s.queue
  }

  predicate HasTask(pc: Pc, n: nat) {
    (pc.Taken? || pc.Running?) && pc.n == n
  }

  // Each taken task has been run, or one worker has it.
  ghost predicate Once(s: State) {
    && (forall n :: n in s.done ==> n < |s.taken|)
    && (forall n: nat {:trigger Assigned(s, n)} :: n < |s.taken| ==> n in s.done || Assigned(s, n))
    && (forall w, n: nat {:trigger HasTask(s.threads[w], n)} :: w in s.threads && HasTask(s.threads[w], n) ==>
          n < |s.taken| && n !in s.done)
    && (forall w, v, n: nat {:trigger HasTask(s.threads[w], n), HasTask(s.threads[v], n)} ::
          w in s.threads && v in s.threads && HasTask(s.threads[w], n) && HasTask(s.threads[v], n) ==> w == v)
  }

  ghost predicate Assigned(s: State, n: nat) {
    exists w :: w in s.threads && HasTask(s.threads[w], n)
  }

  ghost predicate Inv(s: State) {
    Seated(s) && Counted(s) && InOrder(s) && Once(s)
  }

  lemma InitInv(s: State)
    requires Init(s)
    ensures Inv(s)
  {
    NoneCounted(Uses(s), IsLive);
    NoneCounted(Uses(s), IsBusy);
  }

  // A step of worker w that keeps it in its slot.
  lemma Moved(s: State, s': State, w: nat)
    requires Seated(s) && w in s.threads && w in s'.threads && s'.slots == s.slots
    requires s'.threads == s.threads[w := s'.threads[w]]
    ensures Seated(s')
    ensures
      var a, b := Used(s.threads[w]), Used(s'.threads[w]);
      && Count(Uses(s'), IsLive) == Count(Uses(s), IsLive) - (if IsLive(a) then 1 else 0) + (if IsLive(b) then 1 else 0)
      && Count(Uses(s'), IsBusy) == Count(Uses(s), IsBusy) - (if IsBusy(a) then 1 else 0) + (if IsBusy(b) then 1 else 0)
  {
    hide Count;
    var i :| 0 <= i < |s.slots| && s.slots[i] == w;
    assert Uses(s') == Uses(s)[i := Used(s'.threads[w])];
    Changed(Uses(s), IsLive, i, Used(s'.threads[w]));
    Changed(Uses(s), IsBusy, i, Used(s'.threads[w]));
  }

  lemma WorkCounted(s: State, s': State, w: nat)
    requires Seated(s) && Counted(s) && w in s.threads && Work(s, s', w)
    ensures Seated(s') && Counted(s')
  {
    hide Count, Uses;
    if s.threads[w] == Leaving {
      Left(s, s', w);
    } else {
      Moved(s, s', w);
    }
  }

  lemma Left(s: State, s': State, w: nat)
    requires Seated(s) && Counted(s) && w in s.threads && s.threads[w] == Leaving && Work(s, s', w)
    ensures Seated(s') && Counted(s')
  {
    hide Count;
    var i :| 0 <= i < |s.slots| && s.slots[i] == w && s' == s.(slots := s.slots[i := 0], threads := s.threads - {w});
    assert Uses(s') == Uses(s)[i := Free];
    Changed(Uses(s), IsLive, i, Free);
    Changed(Uses(s), IsBusy, i, Free);
    forall v | v in s'.threads
      ensures v in s'.slots
    {
      var j :| 0 <= j < |s.slots| && s.slots[j] == v;
      assert s'.slots[j] == v;
    }
  }

  lemma WorkOnce(s: State, s': State, w: nat)
    requires InOrder(s) && Once(s) && w in s.threads && Work(s, s', w)
    ensures InOrder(s') && Once(s')
  {
    var t, pc := |s.taken|, s.threads[w];
    assert pc.Taken? || pc.Running? ==> HasTask(pc, pc.n);
    forall n: nat | n < |s'.taken| && n !in s'.done
      ensures Assigned(s', n)
    {
      if n < t {
        assert Assigned(s, n);
        var v :| v in s.threads && HasTask(s.threads[v], n);
        assert v in s'.threads && HasTask(s'.threads[v], n);
      } else {
        assert HasTask(s'.threads[w], n);
      }
    }
    forall v, n: nat | v in s'.threads && HasTask(s'.threads[v], n)
      ensures n < |s'.taken| && n !in s'.done
      ensures v == w || (v in s.threads && HasTask(s.threads[v], n))
    {
      if v == w {
        assert pc.Taken? ==> HasTask(pc, n);
      } else {
        assert HasTask(s.threads[v], n) && (pc.Running? && pc.n == n ==> HasTask(pc, n));
      }
    }
    forall v, u, n: nat | v in s'.threads && u in s'.threads && HasTask(s'.threads[v], n) && HasTask(s'.threads[u], n)
      ensures v == u
    {
      assert pc.Taken? ==> (HasTask(pc, n) <==> HasTask(s'.threads[w], n));
    }
  }

  lemma CreatedInv(s: State, s': State, i: nat, w: nat)
    requires Inv(s) && i < |s.slots| && s.slots[i] == 0 && Created(s, s', i, w)
    ensures Inv(s')
  {
    hide Count;
    assert w !in s.slots;
    assert Uses(s') == Uses(s)[i := Used(Ready)];
    Changed(Uses(s), IsLive, i, Used(Ready));
    Changed(Uses(s), IsBusy, i, Used(Ready));
    forall v | v in s'.threads
      ensures v in s'.slots
    {
      if v == w {
        assert s'.slots[i] == w;
      } else {
        var j :| 0 <= j < |s.slots| && s.slots[j] == v;
        assert s'.slots[j] == v;
      }
    }
    forall n: nat | n < |s'.taken| && n !in s'.done
      ensures Assigned(s', n)
    {
      assert Assigned(s, n);
      var v :| v in s.threads && HasTask(s.threads[v], n);
      assert HasTask(s'.threads[v], n);
    }
  }

  lemma ManageInv(s: State, s': State)
    requires Inv(s) && Manage(s, s')
    ensures Inv(s')
  {
    hide Count, Uses;
    if s.manager.Filling? && s.manager.i < |s.slots| && s.slots[s.manager.i] == 0 && s' != s.(manager := Outside) {
      var w: nat :| Created(s, s', s.manager.i, w);
      CreatedInv(s, s', s.manager.i, w);
    } else {
      SameThreads(s, s');
    }
  }

  lemma SameThreads(s: State, s': State)
    requires Inv(s) && s'.slots == s.slots && s'.threads == s.threads && s'.taken == s.taken && s'.done == s.done
    requires s'.liveNum == s.liveNum && s'.busyNum == s.busyNum && s'.exitNum >= 0 && InOrder(s')
    ensures Inv(s')
  {
    hide Count;
    assert Uses(s') == Uses(s);
    forall n: nat | n < |s'.taken| && n !in s'.done
      ensures Assigned(s', n)
    {
      assert Assigned(s, n);
    }
  }

  lemma NextInv(s: State, s': State)
    requires Inv(s) && Next(s, s')
    ensures Inv(s') && Max(s') == Max(s)
  {
    hide Count, Uses, Seated, Once;
    if task :| Push(s, s', task) {
      SameThreads(s, s');
    } else if w :| w in s.threads && Work(s, s', w) {
      WorkCounted(s, s', w);
      WorkOnce(s, s', w);
    } else {
      ManageInv(s, s');
    }
  }

  // -------- runs --------

  ghost predicate Run(t: seq<State>) {
    |t| > 0 && Init(t[0]) && forall i :: 0 <= i < |t| - 1 ==> Next(t[i], t[i + 1])
  }

  lemma {:induction false} RunInv(t: seq<State>, i: nat)
    requires Run(t) && i < |t|
    ensures Inv(t[i]) && Max(t[i]) == Max(t[0])
  {
    hide Inv;
    if i == 0 {
      InitInv(t[0]);
    } else {
      RunInv(t, i - 1);
      NextInv(t[i - 1], t[i]);
    }
  }

  // Tasks are taken in the order they were pushed, each at most once, and a taken task
  // has been run or is with exactly one worker.
  lemma TasksInOrder(t: seq<State>, i: nat)
    requires Run(t) && i < |t|
    ensures t[i].pushed == t[i].taken + t[i].queue
    ensures forall n: nat :: n < |t[i].taken| ==> (n !in t[i].done <==> Assigned(t[i], n))
    ensures forall w, v, n: nat {:trigger HasTask(t[i].threads[w], n), HasTask(t[i].threads[v], n)} ::
              w in t[i].threads && v in t[i].threads && HasTask(t[i].threads[w], n) && HasTask(t[i].threads[v], n) ==>
                w == v
  {
    hide Count, Uses;
    RunInv(t, i);
  }

  // liveNum and the workers that have left it but not their slot are the slots in use, so
  // it never exceeds the number of slots.
  lemma LiveCount(t: seq<State>, i: nat)
    requires Run(t) && i < |t|
    ensures
      var s := t[i];
      && s.liveNum == Count(Uses(s), IsLive)
      && s.liveNum + Count(Uses(s), IsLeaving) == Count(Uses(s), (u: Use) => u.Used?)
      && 0 <= s.busyNum <= s.liveNum <= Max(t[0]) && s.exitNum >= 0
  {
    RunInv(t, i);
    Together(Uses(t[i]));
    InUse(Uses(t[i]));
  }

  lemma {:induction false} InUse(u: seq<Use>)
    ensures Count(u, IsLive) + Count(u, IsLeaving) == Count(u, (x: Use) => x.Used?)
  {
    if |u| > 0 {
      InUse(u[..|u| - 1]);
    }
  }

  // The tasks taken and queued only grow at the end of the line.
  lemma HistoryGrows(s: State, s': State)
    requires Inv(s) && Next(s, s')
    ensures s.pushed <= s'.pushed && s.taken <= s'.taken && s.done <= s'.done && |s'.taken| <= |s.taken| + 1
  {
    hide Count, Uses, Seated, Counted, Once;
    if task :| Push(s, s', task) {
    } else if w :| w in s.threads && Work(s, s', w) {
    } else {
    }
  }

  // -------- progress --------

  // A worker that has the mutex to itself takes the first task of the queue, runs it, and is
  // ready again.
  lemma Served(s: State, w: nat) returns (t: seq<State>)
    requires w in s.threads && s.manager == Outside && s.queue != []
    requires s.threads[w] == Ready || (s.threads[w] == Waiting && s.exitNum <= 0)
    ensures |t| == 4 && t[0] == s
    ensures forall i :: 0 <= i < 3 ==> w in t[i].threads && Work(t[i], t[i + 1], w)
    ensures t[3] == s.(queue := s.queue[1..], taken := s.taken + [s.queue[0]], done := s.done + {|s.taken|},
                       threads := s.threads[w := Ready])
    ensures t[1].busyNum == s.busyNum && t[2].busyNum == s.busyNum + 1
  {
    var n := |s.taken|;
    var a := Proceed(s, w);
    var b := a.(busyNum := a.busyNum + 1, threads := a.threads[w := Running(n)]);
    var c := b.(busyNum := b.busyNum - 1, threads := b.threads[w := Ready], done := b.done + {n});
    t := [s, a, b, c];
    assert c.threads == s.threads[w := Ready];
  }

  // A worker that wakes up to a request to exit goes, and its slot is free.
  lemma Exits(s: State, w: nat) returns (t: seq<State>)
    requires Inv(s) && w in s.threads && s.threads[w] == Waiting && s.manager == Outside && s.exitNum > 0
    ensures |t| == 3 && t[0] == s
    ensures forall i :: 0 <= i < 2 ==> w in t[i].threads && Work(t[i], t[i + 1], w)
    ensures t[2].exitNum == s.exitNum - 1 && t[2].liveNum == s.liveNum - 1
    ensures t[2].threads == s.threads - {w} && w !in t[2].slots && t[2].queue == s.queue
  {
    hide Count;
    var a := s.(exitNum := s.exitNum - 1, liveNum := s.liveNum - 1, threads := s.threads[w := Leaving]);
    var i :| 0 <= i < |s.slots| && s.slots[i] == w;
    var b := a.(slots := a.slots[i := 0], threads := a.threads - {w});
    t := [s, a, b];
    assert Work(s, a, w) && Work(a, b, w);
    assert b.threads == s.threads - {w};
  }

  // A worker that finds nothing to do waits, and any worker can go on when the manager has
  // not got the mutex; so can the manager itself.
  lemma NobodyStuck(s: State)
    requires Inv(s)
    ensures exists s' :: Manage(s, s')
    ensures s.manager == Outside ==> forall w :: w in s.threads ==> exists s' :: Work(s, s', w)
    ensures forall w :: w in s.threads && s.threads[w] == Ready && s.manager == Outside && s.queue == [] ==>
              Work(s, s.(threads := s.threads[w := Waiting]), w)
    ensures s.manager == Outside ==>
              forall task :: Push(s, s.(queue := s.queue + [task], pushed := s.pushed + [task]), task)
  {
    hide Count;
    match s.manager {
      case Outside => assert Manage(s, s.(manager := Filling(0)));
      case Filling(i) =>
        assert i < |s.slots| && s.slots[i] != 0 ==> Manage(s, s.(manager := Filling(i + 1)));
        assert !(i < |s.slots| && s.slots[i] != 0) ==> Manage(s, s.(manager := Outside));
    }
    if s.manager == Outside {
      forall w | w in s.threads
        ensures exists s' :: Work(s, s', w)
      {
        WorkerCan(s, w);
      }
    }
  }

  lemma WorkerCan(s: State, w: nat)
    requires Inv(s) && w in s.threads && s.manager == Outside
    ensures exists s' :: Work(s, s', w)
  {
    hide Count;
    match s.threads[w] {
      case Ready => assert Work(s, Proceed(s, w), w);
      case Waiting =>
        var gone := s.(exitNum := s.exitNum - 1, liveNum := s.liveNum - 1, threads := s.threads[w := Leaving]);
        assert Work(s, if s.exitNum > 0 then gone else Proceed(s, w), w);
      case Taken(n) => assert Work(s, s.(busyNum := s.busyNum + 1, threads := s.threads[w := Running(n)]), w);
      case Running(n) =>
        var ready := s.(busyNum := s.busyNum - 1, threads := s.threads[w := Ready], done := s.done + {n});
        assert Work(s, ready, w);
      case Leaving =>
        var i :| 0 <= i < |s.slots| && s.slots[i] == w;
        assert Work(s, s.(slots := s.slots[i := 0], threads := s.threads - {w}), w);
    }
  }

  // The manager can fill every slot from number i on, if all threads can be created.
  lemma {:induction false} Filled(s: State, i: nat) returns (t: seq<State>)
    requires Inv(s) && s.manager == Filling(i) && i <= |s.slots|
    ensures |t| > 0 && t[0] == s && forall k :: 0 <= k < |t| - 1 ==> Manage(t[k], t[k + 1])
    ensures
      var s' := t[|t| - 1];
      && s'.manager == Outside && |s'.slots| == |s.slots| && s'.queue == s.queue
      && (forall k :: 0 <= k < i ==> s'.slots[k] == s.slots[k])
      && forall k :: i <= k < |s.slots| ==> s'.slots[k] != 0 && (s.slots[k] != 0 ==> s'.slots[k] == s.slots[k])
    decreases |s.slots| - i
  {
    hide Count;
    if i == |s.slots| {
      t := [s, s.(manager := Outside)];
    } else {
      var s' := s.(manager := Filling(i + 1));
      if s.slots[i] == 0 {
        var w := FreshThread(s);
        s' := s'.(slots := s.slots[i := w], threads := s.threads[w := Ready], liveNum := s.liveNum + 1);
        assert Created(s, s', i, w);
      }
      assert Manage(s, s');
      ManageInv(s, s');
      var rest := Filled(s', i + 1);
      t := [s] + rest;
    }
  }

  lemma FreshThread(s: State) returns (w: nat)
    ensures w != 0 && w !in s.threads
  {
    w := Above(s.threads.Keys);
    w := w + 1;
    assert w !in s.threads.Keys;
  }

  lemma {:induction false} Above(ids: set<nat>) returns (m: nat)
    ensures forall x :: x in ids ==> x <= m
  {
    if ids == {} {
      m := 0;
    } else {
      var x :| x in ids;
      m := Above(ids - {x});
      assert forall y :: y in ids ==> y == x || y in ids - {x};
      m := if x > m then x else m;
    }
  }
}
