// The shared-memory mutex of ngx_shmtx.c: N processes, a lock word, a waiter counter and
// a POSIX semaphore. Every atomic operation of the code is one step.

module Shmtx {
  // Where a process is in the code.
  datatype Pc =
    | Idle              // outside
    | Try               // lock: about to read the lock word, at the top or in the spin loop
    | TryCas            // lock: read 0, about to compare and set
    | Announce          // lock: about to increment the waiter counter
    | Second            // lock: announced, about to read the lock word again
    | SecondCas         // lock: read 0 again, about to compare and set
    | Withdraw          // lock: has the lock, about to decrement the waiter counter
    | Sleep             // lock: in sem_wait
    | Held              // has the lock
    | Poll              // trylock: about to read the lock word
    | PollCas           // trylock: read 0, about to compare and set
    | Wake              // wakeup: about to read the waiter counter
    | WakeCas(seen: int) // wakeup: read `seen` > 0, about to compare and set
    | Post              // wakeup: about to post the semaphore

  // The lock word is 0 or the pid of the process that has the lock; process p has pid p + 1.
  datatype State = State(lock: nat, wait: int, sem: nat, pcs: seq<Pc>)

  ghost predicate Init(s: State) {
    s.lock == 0 && s.wait == 0 && s.sem == 0 && forall p :: 0 <= p < |s.pcs| ==> s.pcs[p] == Idle
  }

  function At(s: State, p: nat, pc: Pc): State
    requires p < |s.pcs|
  {
    s.(pcs := s.pcs[p := pc])
  }

  // One step of process p.
  ghost predicate Step(s: State, p: nat, s': State)
    requires p < |s.pcs|
  {
    match s.pcs[p]
    case Idle => s' == At(s, p, Try) || s' == At(s, p, Poll)
    case Try =>
      if s.lock == 0 then s' == At(s, p, TryCas)
      else s' == At(s, p, Try) || s' == At(s, p, Announce)
    case TryCas =>
      if s.lock == 0 then s' == At(s, p, Held).(lock := p + 1)
      else s' == At(s, p, Try) || s' == At(s, p, Announce)
    case Announce => s' == At(s, p, Second).(wait := s.wait + 1)
    case Second => s' == At(s, p, if s.lock == 0 then SecondCas else Sleep)
    case SecondCas => s' == if s.lock == 0 then At(s, p, Withdraw).(lock := p + 1) else At(s, p, Sleep)
    case Withdraw => s' == At(s, p, Held).(wait := s.wait - 1)
    case Sleep => s.sem > 0 && s' == At(s, p, Try).(sem := s.sem - 1)
    case Held => s' == if s.lock == p + 1 then At(s, p, Wake).(lock := 0) else At(s, p, Idle)
    case Poll => s' == At(s, p, if s.lock == 0 then PollCas else Idle)
    case PollCas => s' == if s.lock == 0 then At(s, p, Held).(lock := p + 1) else At(s, p, Idle)
    case Wake => s' == At(s, p, if s.wait <= 0 then Idle else WakeCas(s.wait))
    case WakeCas(seen) => s' == if s.wait == seen then At(s, p, Post).(wait := s.wait - 1) else At(s, p, Wake)
    case Post => s' == At(s, p, Idle).(sem := s.sem + 1)
  }

  // Process p takes the lock from process q, which has it and is gone from the code.
  ghost predicate Force(s: State, p: nat, q: nat, s': State)
    requires p < |s.pcs| && q < |s.pcs|
  {
    && p != q && s.pcs[p] == Idle && s.pcs[q] == Held && s.lock == q + 1
    && s' == At(At(s, q, Idle), p, Wake).(lock := 0)
  }

  ghost predicate Next(s: State, s': State) {
    || (exists p: nat :: p < |s.pcs| && Step(s, p, s'))
    || (exists p: nat, q: nat :: p < |s.pcs| && q < |s.pcs| && Force(s, p, q, s'))
  }

  // -------- counting processes --------

  predicate HasLock(pc: Pc) {
    pc == Held || pc == Withdraw
  }

  // Announced, and neither withdrawn nor woken.
  predicate Waits(pc: Pc) {
    pc == Second || pc == SecondCas || pc == Withdraw || pc == Sleep
  }

  predicate Wakes(pc: Pc) {
    pc == Wake || pc.WakeCas? || pc == Post
  }

  // On the way to the lock, and awake.
  predicate Contends(pc: Pc) {
    pc == Try || pc == TryCas || pc == Announce || pc == Second || pc == SecondCas
  }

  function Waiting(pcs: seq<Pc>): (n: nat)
    ensures n <= |pcs|
  {
    if |pcs| == 0 then 0 else Waiting(pcs[..|pcs| - 1]) + if Waits(pcs[|pcs| - 1]) then 1 else 0
  }

  function Posting(pcs: seq<Pc>): (n: nat)
    ensures n <= |pcs|
  {
    if |pcs| == 0 then 0 else Posting(pcs[..|pcs| - 1]) + if pcs[|pcs| - 1] == Post then 1 else 0
  }

  lemma {:induction false} Moved(pcs: seq<Pc>, p: nat, pc: Pc)
    requires p < |pcs|
    ensures
      var a, b := pcs[p], pc;
      && Waiting(pcs[p := pc]) == Waiting(pcs) - (if Waits(a) then 1 else 0) + (if Waits(b) then 1 else 0)
      && Posting(pcs[p := pc]) == Posting(pcs) - (if a == Post then 1 else 0) + (if b == Post then 1 else 0)
  {
    var n := |pcs| - 1;
    if p < n {
      assert pcs[p := pc][..n] == pcs[..n][p := pc];
      Moved(pcs[..n], p, pc);
    } else {
      assert pcs[p := pc][..n] == pcs[..n];
    }
  }

  // A process that does not wait leaves room in the count.
  lemma {:induction false} NotAllWait(pcs: seq<Pc>, p: nat)
    requires p < |pcs| && !Waits(pcs[p])
    ensures Waiting(pcs) < |pcs|
  {
    var n := |pcs| - 1;
    if p < n {
      NotAllWait(pcs[..n], p);
    }
  }

  lemma {:induction false} SomeWait(pcs: seq<Pc>, p: nat)
    requires p < |pcs|
    ensures Waits(pcs[p]) ==> Waiting(pcs) > 0
    ensures pcs[p] == Post ==> Posting(pcs) > 0
  {
    var n := |pcs| - 1;
    if p < n {
      SomeWait(pcs[..n], p);
    }
  }

  lemma {:induction false} SomePost(pcs: seq<Pc>) returns (p: nat)
    requires Posting(pcs) > 0
    ensures p < |pcs| && pcs[p] == Post
  {
    var n := |pcs| - 1;
    if pcs[n] == Post {
      p := n;
    } else {
      p := SomePost(pcs[..n]);
    }
  }

  lemma {:induction false} NoneCounted(pcs: seq<Pc>)
    requires forall p :: 0 <= p < |pcs| ==> pcs[p] == Idle
    ensures Waiting(pcs) == 0 && Posting(pcs) == 0
  {
    if |pcs| > 0 {
      NoneCounted(pcs[..|pcs| - 1]);
    }
  }

  // -------- the invariant --------

  // The lock word names the one process that has the lock.
  ghost predicate Exclusive(s: State) {
    && s.lock <= |s.pcs|
    && forall p {:trigger s.pcs[p]} :: 0 <= p < |s.pcs| ==> (HasLock(s.pcs[p]) <==> s.lock == p + 1)
  }

  // The waiter counter, the posts on their way and the tokens of the semaphore add up to
  // the processes that wait.
  ghost predicate Balanced(s: State) {
    s.wait + Posting(s.pcs) + s.sem == Waiting(s.pcs)
  }

  // The tokens stay below the number of processes, so the counter keeps between the two.
  ghost predicate Bounded(s: State) {
    Posting(s.pcs) + s.sem < |s.pcs| || Posting(s.pcs) + s.sem == 0
  }

  // When a process sleeps, something is bound to wake it: the lock is held, a waker is on
  // its way, a token is there, or another process is awake and contending.
  ghost predicate Attended(s: State) {
    (exists p :: 0 <= p < |s.pcs| && s.pcs[p] == Sleep) ==>
      || s.lock != 0 || s.sem > 0
      || exists q :: 0 <= q < |s.pcs| && (Wakes(s.pcs[q]) || Contends(s.pcs[q]))
  }

  // What a waker has read was positive.
  ghost predicate Seen(s: State) {
    forall p :: 0 <= p < |s.pcs| && s.pcs[p].WakeCas? ==> s.pcs[p].seen > 0
  }

  ghost predicate Inv(s: State) {
    Exclusive(s) && Balanced(s) && Bounded(s) && Attended(s) && Seen(s)
  }

  lemma InitInv(s: State)
    requires Init(s)
    ensures Inv(s)
  {
    NoneCounted(s.pcs);
  }

  lemma StepCounts(s: State, p: nat, s': State)
    requires p < |s.pcs| && Step(s, p, s') && Balanced(s) && Bounded(s) && Seen(s)
    ensures Balanced(s') && Bounded(s') && Seen(s')
  {
    hide Waiting, Posting;
    Moved(s.pcs, p, s'.pcs[p]);
    assert s'.pcs == s.pcs[p := s'.pcs[p]];
    if s.pcs[p].WakeCas? {
      NotAllWait(s.pcs, p);
    }
  }

  lemma StepExclusive(s: State, p: nat, s': State)
    requires p < |s.pcs| && Step(s, p, s') && Exclusive(s)
    ensures Exclusive(s')
  {
    assert s'.pcs == s.pcs[p := s'.pcs[p]];
  }

  lemma StepAttended(s: State, p: nat, s': State)
    requires p < |s.pcs| && Step(s, p, s') && Balanced(s) && Attended(s)
    ensures Attended(s')
  {
    hide Waiting, Posting;
    var pcs, pcs' := s.pcs, s'.pcs;
    assert pcs' == pcs[p := pcs'[p]];
    if r :| 0 <= r < |pcs'| && pcs'[r] == Sleep {
      if s'.lock == 0 && s'.sem == 0 {
        if Wakes(pcs'[p]) || Contends(pcs'[p]) {
        } else if pcs[p] == Wake {
          SomeWait(pcs, r);
          var q := SomePost(pcs);
          assert pcs'[q] == Post;
        } else {
          assert pcs[r] == Sleep;
          var q :| 0 <= q < |pcs| && (Wakes(pcs[q]) || Contends(pcs[q]));
          assert pcs'[q] == pcs[q];
        }
      }
    }
  }

  lemma ForceInv(s: State, p: nat, q: nat, s': State)
    requires p < |s.pcs| && q < |s.pcs| && Force(s, p, q, s') && Inv(s)
    ensures Inv(s')
  {
    hide Waiting, Posting;
    Moved(s.pcs, q, Idle);
    Moved(s.pcs[q := Idle], p, Wake);
    assert s'.pcs[p] == Wake;
  }

  lemma NextInv(s: State, s': State)
    requires Inv(s) && Next(s, s')
    ensures Inv(s') && |s'.pcs| == |s.pcs|
  {
    hide Waiting, Posting;
    if p: nat :| p < |s.pcs| && Step(s, p, s') {
      StepCounts(s, p, s');
      StepExclusive(s, p, s');
      StepAttended(s, p, s');
    } else {
      var p: nat, q: nat :| p < |s.pcs| && q < |s.pcs| && Force(s, p, q, s');
      ForceInv(s, p, q, s');
    }
  }

  // -------- runs --------

  ghost predicate Run(t: seq<State>) {
    |t| > 0 && Init(t[0]) && forall i :: 0 <= i < |t| - 1 ==> Next(t[i], t[i + 1])
  }

  lemma {:induction false} RunInv(t: seq<State>, i: nat)
    requires Run(t) && i < |t|
    ensures Inv(t[i]) && |t[i].pcs| == |t[0].pcs|
  {
    hide Waiting, Posting;
    if i == 0 {
      InitInv(t[0]);
    } else {
      RunInv(t, i - 1);
      NextInv(t[i - 1], t[i]);
    }
  }

  // In every interleaving at most one process has the lock.
  lemma MutualExclusion(t: seq<State>, i: nat, p: nat, q: nat)
    requires Run(t) && i < |t| && p < |t[i].pcs| && q < |t[i].pcs|
    requires HasLock(t[i].pcs[p]) && HasLock(t[i].pcs[q])
    ensures p == q
  {
    hide Waiting, Posting;
    RunInv(t, i);
  }

  // The waiter counter and the semaphore never leave the range of the process count.
  lemma CounterRange(t: seq<State>, i: nat)
    requires Run(t) && i < |t|
    ensures
      var s := t[i];
      && s.wait + Posting(s.pcs) + s.sem == Waiting(s.pcs)
      && -(|s.pcs| as int) <= s.wait <= |s.pcs| && s.sem <= |s.pcs|
  {
    RunInv(t, i);
  }

  // No wakeup is lost.
  lemma NoLostWakeup(t: seq<State>, i: nat, p: nat)
    requires Run(t) && i < |t| && p < |t[i].pcs| && t[i].pcs[p] == Sleep
    ensures
      var s := t[i];
      || s.lock != 0 || s.sem > 0
      || exists q :: 0 <= q < |s.pcs| && (Wakes(s.pcs[q]) || Contends(s.pcs[q]))
  {
    hide Waiting, Posting;
    RunInv(t, i);
  }

  // The lock is handed over only through being free: it goes to the process that takes
  // the step, and is freed by the process that has it or on its behalf.
  lemma LockChanges(s: State, s': State)
    requires Inv(s) && Next(s, s') && s'.lock != s.lock
    ensures s.lock == 0 || s'.lock == 0
    ensures s.lock == 0 ==> s'.lock <= |s'.pcs| && HasLock(s'.pcs[s'.lock - 1]) && !HasLock(s.pcs[s'.lock - 1])
    ensures s'.lock == 0 ==> HasLock(s.pcs[s.lock - 1]) && !HasLock(s'.pcs[s.lock - 1])
  {
    hide Waiting, Posting;
    NextInv(s, s');
  }

  // -------- progress --------

  // Steps of processes that are inside the code, outside critical sections.
  ghost predicate Inner(s: State, s': State) {
    exists p: nat :: p < |s.pcs| && s.pcs[p] != Idle && !HasLock(s.pcs[p]) && Step(s, p, s')
  }

  ghost predicate InnerRun(t: seq<State>) {
    |t| > 0 && forall i :: 0 <= i < |t| - 1 ==> Inner(t[i], t[i + 1])
  }

  lemma Extend(s: State, p: nat, s': State, t: seq<State>)
    requires InnerRun(t) && t[0] == s'
    requires p < |s.pcs| && s.pcs[p] != Idle && !HasLock(s.pcs[p]) && Step(s, p, s')
    ensures InnerRun([s] + t) && ([s] + t)[0] == s && ([s] + t)[|t|] == t[|t| - 1]
  {
    assert Inner(s, s');
    forall i | 0 <= i < |t|
      ensures Inner(([s] + t)[i], ([s] + t)[i + 1])
    {
    }
  }

  // A process that is awake and contending can take a free lock on its own.
  lemma TakeFree(s: State, p: nat) returns (t: seq<State>)
    requires p < |s.pcs| && s.lock == 0 && Contends(s.pcs[p])
    ensures InnerRun(t) && t[0] == s && t[|t| - 1].lock == p + 1
    decreases if s.pcs[p] == Announce then 2 else if s.pcs[p] == Try || s.pcs[p] == Second then 1 else 0
  {
    var pc := s.pcs[p];
    var s' :=
      if pc == Try then At(s, p, TryCas)
      else if pc == TryCas then At(s, p, Held).(lock := p + 1)
      else if pc == Announce then At(s, p, Second).(wait := s.wait + 1)
      else if pc == Second then At(s, p, SecondCas)
      else At(s, p, Withdraw).(lock := p + 1);
    if s'.lock == 0 {
      t := TakeFree(s', p);
    } else {
      t := [s'];
    }
    Extend(s, p, s', t);
    t := [s] + t;
  }

  // Whenever the lock is free and a process sleeps, the processes already inside can go
  // on, without anybody new coming, until one of them has the lock.
  lemma SleeperFreed(s: State, p: nat) returns (t: seq<State>)
    requires Inv(s) && p < |s.pcs| && s.pcs[p] == Sleep && s.lock == 0
    ensures InnerRun(t) && t[0] == s && t[|t| - 1].lock != 0
  {
    hide Waiting, Posting;
    if s.sem > 0 {
      t := TakeFree(At(s, p, Try).(sem := s.sem - 1), p);
      Extend(s, p, t[0], t);
      t := [s] + t;
    } else {
      var q :| 0 <= q < |s.pcs| && (Wakes(s.pcs[q]) || Contends(s.pcs[q]));
      if Contends(s.pcs[q]) {
        t := TakeFree(s, q);
      } else {
        t := Woken(s, p, q);
      }
    }
  }

  lemma Woken(s: State, p: nat, q: nat) returns (t: seq<State>)
    requires Inv(s) && p < |s.pcs| && s.pcs[p] == Sleep && s.lock == 0 && q < |s.pcs| && Wakes(s.pcs[q])
    ensures InnerRun(t) && t[0] == s && t[|t| - 1].lock != 0
    decreases match s.pcs[q] case WakeCas(w) => (if s.wait == w then 1 else 3) case Wake => 2 case _ => 0
  {
    hide Waiting, Posting;
    var pc := s.pcs[q];
    var s' :=
      if pc == Wake then At(s, q, if s.wait <= 0 then Idle else WakeCas(s.wait))
      else if pc == Post then At(s, q, Idle).(sem := s.sem + 1)
      else if s.wait == pc.seen then At(s, q, Post).(wait := s.wait - 1)
      else At(s, q, Wake);
    StepCounts(s, q, s');
    StepExclusive(s, q, s');
    StepAttended(s, q, s');
    if s.pcs[q] == Post || (s.pcs[q] == Wake && s.wait <= 0 && s.sem > 0) {
      t := TakeFree(At(s', p, Try).(sem := s'.sem - 1), p);
      Extend(s', p, t[0], t);
      t := [s'] + t;
    } else if s.pcs[q] == Wake && s.wait <= 0 {
      SomeWait(s.pcs, p);
      var r := SomePost(s.pcs);
      t := Woken(s', p, r);
    } else {
      t := Woken(s', p, q);
    }
    Extend(s, q, s', t);
    t := [s] + t;
  }

  // -------- what the calls do --------

  // A stretch of a run in which process who[i] takes step i, on its own account or by force
  ghost predicate Traced(t: seq<State>, who: seq<nat>) {
    && |t| == |who| + 1 && Inv(t[0])
    && forall i :: 0 <= i < |who| ==> who[i] < |t[i].pcs| && Moves(t[i], who[i], t[i + 1])
  }

  ghost predicate Moves(s: State, p: nat, s': State)
    requires p < |s.pcs|
  {
    Step(s, p, s') || exists q: nat :: q < |s.pcs| && Force(s, p, q, s')
  }

  lemma MovesNext(s: State, p: nat, s': State)
    requires p < |s.pcs| && Moves(s, p, s')
    ensures Next(s, s')
  {
  }

  lemma {:induction false} TracedInv(t: seq<State>, who: seq<nat>, i: nat)
    requires Traced(t, who) && i < |t|
    ensures Inv(t[i]) && |t[i].pcs| == |t[0].pcs|
  {
    hide Waiting, Posting, Inv;
    if i > 0 {
      TracedInv(t, who, i - 1);
      MovesNext(t[i - 1], who[i - 1], t[i]);
      NextInv(t[i - 1], t[i]);
    }
  }

  // From step i on, process p takes its next step at j.
  ghost predicate NextTurn(who: seq<nat>, p: nat, i: nat, j: nat) {
    i < j < |who| && who[j] == p && forall k :: i < k < j ==> who[k] != p
  }

  // A process that has not got the lock stays where it is until its next step.
  lemma {:induction false} Stays(t: seq<State>, who: seq<nat>, p: nat, i: nat, j: nat)
    requires Traced(t, who) && p < |t[0].pcs| && i <= j < |t| && p < |t[i].pcs| && t[i].pcs[p] != Held
    requires forall k :: i <= k < j ==> who[k] != p
    ensures p < |t[j].pcs| && t[j].pcs[p] == t[i].pcs[p]
    decreases j
  {
    if i < j {
      Stays(t, who, p, i, j - 1);
      assert Moves(t[j - 1], who[j - 1], t[j]);
    }
  }

  // A step of a process outside starts one of the calls.
  ghost predicate Starts(s: State, p: nat, s': State, pc: Pc) {
    p < |s.pcs| && s.pcs[p] == Idle && s' == At(s, p, pc)
  }

  // ngx_shmtx_trylock is outside again, without the lock, if the word is not free at its
  // first look.
  lemma TryLockTaken(t: seq<State>, who: seq<nat>, p: nat, i: nat, j: nat)
    requires Traced(t, who) && i < |who| && Starts(t[i], p, t[i + 1], Poll)
    requires NextTurn(who, p, i, j) && t[j].lock != 0
    ensures p < |t[j + 1].pcs| && t[j + 1].pcs[p] == Idle && t[j + 1].lock == t[j].lock
  {
    hide Waiting, Posting, Inv;
    TracedInv(t, who, i);
    Stays(t, who, p, i + 1, j);
    assert Moves(t[j], p, t[j + 1]);
    TracedInv(t, who, j + 1);
  }

  // If it is free then, the second look decides: the process has the lock if and only if the
  // word is free at that as well.
  lemma TryLock(t: seq<State>, who: seq<nat>, p: nat, i: nat, j: nat, k: nat)
    requires Traced(t, who) && i < |who| && Starts(t[i], p, t[i + 1], Poll)
    requires NextTurn(who, p, i, j) && NextTurn(who, p, j, k) && t[j].lock == 0
    ensures p < |t[k + 1].pcs|
    ensures t[k + 1].pcs[p] == if t[k].lock == 0 then Held else Idle
    ensures t[k + 1].lock == if t[k].lock == 0 then p + 1 else t[k].lock
  {
    hide Waiting, Posting, Inv;
    TracedInv(t, who, i);
    Stays(t, who, p, i + 1, j);
    assert Moves(t[j], p, t[j + 1]);
    Stays(t, who, p, j + 1, k);
    assert Moves(t[k], p, t[k + 1]);
    TracedInv(t, who, k + 1);
  }

  // ngx_shmtx_lock has the lock at once if the word is free at both of its first looks.
  lemma LockFree(t: seq<State>, who: seq<nat>, p: nat, i: nat, j: nat, k: nat)
    requires Traced(t, who) && i < |who| && Starts(t[i], p, t[i + 1], Try)
    requires NextTurn(who, p, i, j) && NextTurn(who, p, j, k) && t[j].lock == 0 && t[k].lock == 0
    ensures p < |t[k + 1].pcs| && t[k + 1].pcs[p] == Held && t[k + 1].lock == p + 1
  {
    hide Waiting, Posting, Inv;
    TracedInv(t, who, i);
    Stays(t, who, p, i + 1, j);
    assert Moves(t[j], p, t[j + 1]);
    Stays(t, who, p, j + 1, k);
    assert Moves(t[k], p, t[k + 1]);
    TracedInv(t, who, k + 1);
  }

  predicate InLock(pc: Pc) {
    Contends(pc) || pc == Sleep || pc == Withdraw
  }

  // It does not come back without the lock.
  lemma {:induction false} LockReturns(t: seq<State>, who: seq<nat>, p: nat, i: nat, n: nat)
    requires Traced(t, who) && p < |t[0].pcs| && i <= n < |t| && p < |t[i].pcs| && InLock(t[i].pcs[p])
    requires forall k :: i <= k <= n ==> p < |t[k].pcs| && t[k].pcs[p] != Held
    ensures InLock(t[n].pcs[p])
    decreases n
  {
    hide Waiting, Posting, Inv;
    if i < n {
      LockReturns(t, who, p, i, n - 1);
      assert Moves(t[n - 1], who[n - 1], t[n]);
    }
  }

  // One step of the holder frees the word, whatever the others do before.
  lemma UnlockFrees(t: seq<State>, who: seq<nat>, p: nat, i: nat)
    requires Traced(t, who) && i < |who| && who[i] == p && p < |t[i].pcs| && t[i].pcs[p] == Held
    ensures t[i].lock == p + 1 && t[i + 1].lock == 0 && p < |t[i + 1].pcs| && t[i + 1].pcs[p] == Wake
  {
    hide Waiting, Posting;
    TracedInv(t, who, i);
    assert Moves(t[i], p, t[i + 1]);
  }

  // Then, if nobody waits, it is outside; and if the waiter counter is positive and does not
  // change between two of its steps, the counter goes down by one and the third step posts a token.
  lemma UnlockWakes(t: seq<State>, who: seq<nat>, p: nat, i: nat, j: nat, k: nat, l: nat)
    requires Traced(t, who) && i < |who| && p < |t[i + 1].pcs| && t[i + 1].pcs[p] == Wake
    requires NextTurn(who, p, i, j) && NextTurn(who, p, j, k) && NextTurn(who, p, k, l)
    ensures p < |t[j + 1].pcs| && p < |t[k + 1].pcs| && p < |t[l + 1].pcs|
    ensures t[j].wait <= 0 ==> t[j + 1].pcs[p] == Idle && t[j + 1].sem == t[j].sem && t[j + 1].wait == t[j].wait
    ensures t[j].wait > 0 && t[k].wait == t[j].wait ==>
              && t[k + 1].wait == t[k].wait - 1
              && t[l + 1].sem == t[l].sem + 1 && t[l + 1].pcs[p] == Idle
    ensures t[j].wait > 0 && t[k].wait != t[j].wait ==> t[k + 1].pcs[p] == Wake && t[k + 1].wait == t[k].wait
  {
    hide Waiting, Posting, Inv;
    TracedInv(t, who, i + 1);
    Stays(t, who, p, i + 1, j);
    assert Moves(t[j], p, t[j + 1]);
    TracedInv(t, who, j + 1);
    if t[j].wait > 0 {
      Stays(t, who, p, j + 1, k);
      assert Moves(t[k], p, t[k + 1]);
      if t[k].wait == t[j].wait {
        Stays(t, who, p, k + 1, l);
        assert Moves(t[l], p, t[l + 1]);
      }
    }
    TracedInv(t, who, k + 1);
    TracedInv(t, who, l + 1);
  }

  // A sleeper takes a token, and tries again.
  lemma SleeperWakes(s: State, p: nat, s': State)
    requires p < |s.pcs| && s.pcs[p] == Sleep && Moves(s, p, s')
    ensures s.sem > 0 && s'.sem == s.sem - 1 && s' == At(s, p, Try).(sem := s.sem - 1)
  {
  }

  // Nobody is stuck but a sleeper without a token. From outside both calls can start, and
  // so can the release of a lock that another process has.
  lemma NobodyStuck(s: State, p: nat)
    requires Inv(s) && p < |s.pcs|
    ensures (exists s' :: Step(s, p, s')) <==> s.pcs[p] != Sleep || s.sem > 0
    ensures s.pcs[p] == Idle ==> Step(s, p, At(s, p, Try)) && Step(s, p, At(s, p, Poll))
    ensures forall q: nat :: q < |s.pcs| && s.pcs[p] == Idle && s.pcs[q] == Held ==>
              exists s' :: Force(s, p, q, s') && s'.lock == 0 && s'.pcs == s.pcs[q := Idle][p := Wake]
  {
    hide Waiting, Posting;
    assert Step(s, p, AStep(s, p)) || (s.pcs[p] == Sleep && s.sem == 0);
    forall q: nat | q < |s.pcs| && s.pcs[p] == Idle && s.pcs[q] == Held
      ensures exists s' :: Force(s, p, q, s') && s'.lock == 0 && s'.pcs == s.pcs[q := Idle][p := Wake]
    {
      assert Force(s, p, q, At(At(s, q, Idle), p, Wake).(lock := 0));
    }
  }

  // A step that the process can take
  ghost function AStep(s: State, p: nat): State
    requires p < |s.pcs|
  {
    match s.pcs[p]
    case Idle => At(s, p, Try)
    case Try => At(s, p, if s.lock == 0 then TryCas else Announce)
    case TryCas => if s.lock == 0 then At(s, p, Held).(lock := p + 1) else At(s, p, Try)
    case Announce => At(s, p, Second).(wait := s.wait + 1)
    case Second => At(s, p, if s.lock == 0 then SecondCas else Sleep)
    case SecondCas => if s.lock == 0 then At(s, p, Withdraw).(lock := p + 1) else At(s, p, Sleep)
    case Withdraw => At(s, p, Held).(wait := s.wait - 1)
    case Sleep => At(s, p, Try).(sem := if s.sem > 0 then s.sem - 1 else 0)
    case Held => if s.lock == p + 1 then At(s, p, Wake).(lock := 0) else At(s, p, Idle)
    case Poll => At(s, p, if s.lock == 0 then PollCas else Idle)
    case PollCas => if s.lock == 0 then At(s, p, Held).(lock := p + 1) else At(s, p, Idle)
    case Wake => At(s, p, if s.wait <= 0 then Idle else WakeCas(s.wait))
    case WakeCas(seen) => if s.wait == seen then At(s, p, Post).(wait := s.wait - 1) else At(s, p, Wake)
    case Post => At(s, p, Idle).(sem := s.sem + 1)
  }

  // A process that finds the word taken and stays on its own can go on to sleep, announced.
  lemma GoesToSleep(s: State, p: nat) returns (t: seq<State>)
    requires p < |s.pcs| && s.pcs[p] == Idle && s.lock != 0
    ensures |t| == 5 && t[0] == s && forall i :: 0 <= i < 4 ==> p < |t[i].pcs| && Step(t[i], p, t[i + 1])
    ensures t[4] == At(s, p, Sleep).(wait := s.wait + 1)
  {
    var a, b := At(s, p, Try), At(s, p, Announce);
    var c, d := At(s, p, Second).(wait := s.wait + 1), At(s, p, Sleep).(wait := s.wait + 1);
    t := [s, a, b, c, d];
    assert Step(s, p, a) && Step(a, p, b) && Step(b, p, c) && Step(c, p, d);
  }

  // It may also look again and again before that.
  lemma Spins(s: State, p: nat)
    requires p < |s.pcs| && s.pcs[p] == Try && s.lock != 0
    ensures Step(s, p, s) && Step(s, p, At(s, p, Announce))
  {
    assert At(s, p, Try) == s;
  }
}
