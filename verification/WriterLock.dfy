/** The writer every lifecycle over one backend shares: a mutex-guarded owner
    and waiting count with a condition variable, one critical section a step. */
module WriterLock {
  import opened Options
  import opened Records

  type ThreadId = int

  /** `Asleep` waits on the condition variable, `Awake` was woken and has not
      looked again, `Notifying` gave the writer back and has not notified. */
  datatype Status = Outside | Asleep | Awake | Holding | Notifying

  datatype Lock = Lock(owner: Option<ThreadId>, waiting: nat, threads: map<ThreadId, Status>)

  datatype Step =
    | Enter(thread: ThreadId)
    | Wake(thread: ThreadId)
    | Resume(thread: ThreadId)
    | Release(thread: ThreadId)
    | Notify(thread: ThreadId, chosen: ThreadId)

  const FREE: Lock := Lock(None, 0, map[])

  function StatusOf(lock: Lock, t: ThreadId): Status {
    if t in lock.threads then lock.threads[t] else Outside
  }

  function With(lock: Lock, t: ThreadId, status: Status): Lock {
    lock.(threads := lock.threads[t := status])
  }

  /** The threads inside `acquire`. */
  function Waiting(lock: Lock): set<ThreadId> {
    set t | t in lock.threads && (lock.threads[t] == Asleep || lock.threads[t] == Awake)
  }

  /** `wait_while`: sleep while the writer is owned, else take it. */
  function Looked(lock: Lock, t: ThreadId): Lock {
    if lock.owner.Some? then With(lock, t, Asleep)
    else With(lock.(owner := Some(t), waiting := if lock.waiting > 0 then lock.waiting - 1 else 0), t, Holding)
  }

  /** A step of one thread; a step the thread is not at changes nothing. Any
      sleeper may wake on its own. A notification wakes one sleeper, if any. */
  function Next(lock: Lock, step: Step): Lock {
    match step
    case Enter(t) =>
      if lock.owner == Some(t) || StatusOf(lock, t) != Outside then lock
      else Looked(lock.(waiting := lock.waiting + 1), t)
    case Wake(t) => if StatusOf(lock, t) == Asleep then With(lock, t, Awake) else lock
    case Resume(t) => if StatusOf(lock, t) == Awake then Looked(lock, t) else lock
    case Release(t) => if StatusOf(lock, t) == Holding then With(lock.(owner := None), t, Notifying) else lock
    case Notify(t, chosen) =>
      if StatusOf(lock, t) != Notifying then lock
      else if StatusOf(lock, chosen) == Asleep then With(With(lock, t, Outside), chosen, Awake)
      else if exists s | s in lock.threads :: lock.threads[s] == Asleep then lock
      else With(lock, t, Outside)
  }

  function After(steps: seq<Step>): Lock {
    if steps == [] then FREE else Next(After(steps[..|steps| - 1]), steps[|steps| - 1])
  }

  /** A free writer with a sleeper has somebody left to wake it. */
  ghost predicate NoLostWake(lock: Lock) {
    lock.owner.None? && (exists s :: StatusOf(lock, s) == Asleep) ==>
      exists t :: StatusOf(lock, t) == Awake || StatusOf(lock, t) == Notifying
  }

  ghost predicate Sane(lock: Lock) {
    && (forall t :: lock.owner == Some(t) <==> StatusOf(lock, t) == Holding)
    && lock.waiting == |Waiting(lock)|
    && NoLostWake(lock)
  }

  lemma Recounted(lock: Lock, t: ThreadId, status: Status)
    ensures var was, now := Waiting(lock), Waiting(With(lock, t, status));
      && now == (if status == Asleep || status == Awake then was + {t} else was - {t})
      && |now| == |was| + (if status == Asleep || status == Awake then if t in was then 0 else 1
                          else if t in was then -1 else 0)
  {
    var was, now := Waiting(lock), Waiting(With(lock, t, status));
    assert now == (if status == Asleep || status == Awake then was + {t} else was - {t});
    if t in was {
      assert was + {t} == was;
    } else {
      assert was - {t} == was;
    }
  }

  lemma LookKeeps(lock: Lock, t: ThreadId)
    requires StatusOf(lock, t) != Holding && StatusOf(lock, t) != Notifying
    requires forall u :: lock.owner == Some(u) <==> StatusOf(lock, u) == Holding
    requires lock.waiting == |Waiting(lock)| + (if t in Waiting(lock) then 0 else 1)
    ensures Sane(Looked(lock, t))
  {
    Recounted(lock, t, if lock.owner.Some? then Asleep else Holding);
    hide Waiting;
    var after := Looked(lock, t);
    forall u ensures u != t ==> StatusOf(after, u) == StatusOf(lock, u) {
    }
    assert Waiting(after) == Waiting(With(lock, t, if lock.owner.Some? then Asleep else Holding)) by {
      SameThreads(after, With(lock, t, if lock.owner.Some? then Asleep else Holding));
    }
    assert StatusOf(after, t) == if lock.owner.Some? then Asleep else Holding;
  }

  lemma SameThreads(a: Lock, b: Lock)
    requires a.threads == b.threads
    ensures Waiting(a) == Waiting(b)
  {
  }

  lemma StepKeeps(lock: Lock, step: Step)
    requires Sane(lock)
    ensures Sane(Next(lock, step))
  {
    var t := step.thread;
    match step
    case Enter(_) =>
      if lock.owner != Some(t) && StatusOf(lock, t) == Outside {
        var entered := lock.(waiting := lock.waiting + 1);
        SameThreads(entered, lock);
        forall u ensures StatusOf(entered, u) == StatusOf(lock, u) {
        }
        LookKeeps(entered, t);
      }
    case Resume(_) =>
      if StatusOf(lock, t) == Awake {
        LookKeeps(lock, t);
      }
    case Wake(_) =>
      Recounted(lock, t, Awake);
      WakeKeeps(lock, t);
    case Release(_) =>
      Recounted(lock, t, Notifying);
      ReleaseKeeps(lock, t);
    case Notify(_, chosen) =>
      Recounted(lock, t, Outside);
      Recounted(With(lock, t, Outside), chosen, Awake);
      NotifyKeeps(lock, t, chosen);
  }

  lemma WakeKeeps(lock: Lock, t: ThreadId)
    requires Sane(lock) && StatusOf(lock, t) == Asleep ==> |Waiting(With(lock, t, Awake))| == |Waiting(lock)|
    requires Sane(lock)
    ensures Sane(Next(lock, Wake(t)))
  {
    hide Waiting;
    var after := Next(lock, Wake(t));
    forall u ensures u != t ==> StatusOf(after, u) == StatusOf(lock, u) {
    }
    if StatusOf(lock, t) == Asleep {
      assert StatusOf(after, t) == Awake;
    }
  }

  lemma ReleaseKeeps(lock: Lock, t: ThreadId)
    requires StatusOf(lock, t) == Holding ==> |Waiting(With(lock, t, Notifying))| == |Waiting(lock)|
    requires Sane(lock)
    ensures Sane(Next(lock, Release(t)))
  {
    hide Waiting;
    var after := Next(lock, Release(t));
    forall u ensures u != t ==> StatusOf(after, u) == StatusOf(lock, u) {
    }
    if StatusOf(lock, t) == Holding {
      SameThreads(after, With(lock, t, Notifying));
      assert StatusOf(after, t) == Notifying;
    }
  }

  lemma NotifyKeeps(lock: Lock, t: ThreadId, chosen: ThreadId)
    requires Sane(lock)
    requires StatusOf(lock, t) == Notifying ==> |Waiting(With(lock, t, Outside))| == |Waiting(lock)|
    requires StatusOf(lock, t) == Notifying && StatusOf(lock, chosen) == Asleep ==>
      |Waiting(With(With(lock, t, Outside), chosen, Awake))| == |Waiting(lock)|
    ensures Sane(Next(lock, Notify(t, chosen)))
  {
    hide Waiting;
    var after := Next(lock, Notify(t, chosen));
    forall u ensures u != t && u != chosen ==> StatusOf(after, u) == StatusOf(lock, u) {
    }
    if StatusOf(lock, t) == Notifying {
      if StatusOf(lock, chosen) == Asleep {
        assert StatusOf(after, chosen) == Awake && StatusOf(after, t) == Outside;
      } else if exists s | s in lock.threads :: lock.threads[s] == Asleep {
      } else {
        forall s ensures StatusOf(after, s) != Asleep {
        }
      }
    }
  }

  /** At most one thread holds the writer, the waiting count is exact, and no
      wake-up is lost, whatever the threads do. */
  lemma {:induction false} EveryRun(steps: seq<Step>)
    ensures Sane(After(steps))
    decreases |steps|
  {
    hide Sane, Next, After;
    if steps == [] {
      FreeIsSane();
    } else {
      EveryRun(steps[..|steps| - 1]);
      AfterIs(steps);
      StepKeeps(After(steps[..|steps| - 1]), steps[|steps| - 1]);
    }
  }

  lemma FreeIsSane()
    ensures Sane(After([]))
  {
    assert Waiting(FREE) == {};
  }

  lemma AfterIs(steps: seq<Step>)
    requires steps != []
    ensures After(steps) == Next(After(steps[..|steps| - 1]), steps[|steps| - 1])
  {
  }

  /** A thread that holds the writer is refused at once: it neither waits nor
      changes anything. Any other thread that enters holds it or waits. */
  lemma EnterAnswers(lock: Lock, t: ThreadId)
    requires Sane(lock)
    ensures StatusOf(lock, t) == Holding ==> Next(lock, Enter(t)) == lock
    ensures StatusOf(lock, t) == Outside ==>
      StatusOf(Next(lock, Enter(t)), t) == if lock.owner.None? then Holding else Asleep
  {
    assert lock.owner == Some(t) <==> StatusOf(lock, t) == Holding;
    hide Sane;
  }

  /** The writer's state, changed in place by one critical section a call.
      `threads` records where each thread stands. */
  class Writer {
    var owner: Option<ThreadId>
    var waiting: nat
    ghost var threads: map<ThreadId, Status>

    ghost function State(): Lock
      reads this
    {
      Lock(owner, waiting, threads)
    }

    constructor ()
      ensures State() == FREE
    {
      owner, waiting, threads := None, 0, map[];
    }

    /** The first critical section of `acquire`, up to a sleep or the guard. */
    method Acquire(current: ThreadId) returns (refused: bool, held: bool)
      requires Sane(State()) && (StatusOf(State(), current) == Outside || StatusOf(State(), current) == Holding)
      modifies this
      ensures State() == Next(old(State()), Enter(current)) && Sane(State())
      ensures refused <==> old(owner) == Some(current)
      ensures held <==> !refused && owner == Some(current)
    {
      StepKeeps(State(), Enter(current));
      EnterAnswers(State(), current);
      hide Sane;
      if owner == Some(current) {
        return true, false;
      }
      waiting := waiting + 1;
      held := Look(current);
      refused := false;
    }

    /** `wait_while`'s condition, when a thread enters or wakes. */
    method Look(current: ThreadId) returns (held: bool)
      requires waiting > 0
      modifies this
      ensures State() == Looked(old(State()), current)
      ensures held <==> old(owner).None?
    {
      if owner.Some? {
        threads := threads[current := Asleep];
        held := false;
      } else {
        waiting := waiting - 1;
        owner := Some(current);
        threads := threads[current := Holding];
        held := true;
      }
    }

    /** A woken thread looks again: the count it gives back includes it. */
    method LookAgain(current: ThreadId) returns (held: bool)
      requires Sane(State()) && StatusOf(State(), current) == Awake
      modifies this
      ensures State() == Next(old(State()), Resume(current)) && Sane(State())
      ensures held <==> owner == Some(current)
    {
      StepKeeps(State(), Resume(current));
      assert State().threads == threads;
      assert current in Waiting(State());
      held := Look(current);
    }

    /** The guard's drop: the owner is cleared, and the notification is left. */
    method Drop(current: ThreadId)
      requires Sane(State()) && StatusOf(State(), current) == Holding
      modifies this
      ensures State() == Next(old(State()), Release(current)) && Sane(State())
      ensures owner.None? && waiting == old(waiting)
    {
      StepKeeps(State(), Release(current));
      hide Sane;
      owner := None;
      threads := threads[current := Notifying];
    }
  }
}
