/**
 * src/Scheduler.cpp: a worker and its tasks. The worker runs from one release of its lock to the next in one step;
 * in between, other threads dispatch tasks to it, cancel tasks, and time passes.
 */
module Scheduler {

  class SchedulerTask {
    var nextRun: nat
    const interval: nat
    const isRegular: bool
    var cancelled: bool
    // When it was first due, when it started and finished running, and whether it has been deleted.
    ghost const due: nat
    ghost var started: seq<nat>
    ghost var finished: seq<nat>
    ghost var deleted: bool

    constructor (nr: nat, ival: nat, regular: bool)
      ensures nextRun == nr && interval == ival && isRegular == regular && !cancelled
      ensures due == nr && started == [] && finished == [] && !deleted
    {
      nextRun, interval, isRegular, cancelled := nr, ival, regular, false;
      due := nr;
      started, finished, deleted := [], [], false;
    }

    /** Never before it is due; again only an interval after it finished; once, unless it is regular. */
    ghost predicate Kept(running: bool)
      reads `nextRun, `started, `finished, `deleted
    {
      && |started| == |finished| + (if running then 1 else 0)
      && (forall i :: 0 <= i < |started| ==> started[i] >= if i == 0 then due else finished[i - 1] + interval)
      && (forall i :: 0 <= i < |finished| ==> started[i] <= finished[i])
      && nextRun == (if finished == [] || !isRegular then due else finished[|finished| - 1] + interval)
      && (!isRegular ==> |started| <= 1 && (finished != [] ==> deleted))
      && (running ==> !deleted)
    }

    /** The call of its function. */
    method Start(time: nat)
      requires Kept(false) && !deleted && nextRun <= time
      modifies `started
      ensures Kept(true) && started == old(started) + [time]
    {
      started := started + [time];
    }

    /** What follows the call, for a regular task. */
    method Reschedule(time: nat)
      requires Kept(true) && isRegular && started[|started| - 1] <= time
      modifies `nextRun, `finished
      ensures Kept(false) && finished == old(finished) + [time]
    {
      finished := finished + [time];
      nextRun := time + interval;
    }

    /** What follows the call, for the others: the worker deletes them. */
    method Retire(time: nat)
      requires Kept(true) && !isRegular && started[|started| - 1] <= time
      modifies `deleted, `finished
      ensures Kept(false) && finished == old(finished) + [time] && deleted
    {
      finished := finished + [time];
      deleted := true;
    }

    method Delete()
      requires Kept(false) && !deleted
      modifies `deleted
      ensures Kept(false) && deleted
    {
      deleted := true;
    }
  }

  /** Where the worker is: about to look at its tasks, at one of the three places that release the lock, or gone. */
  datatype Place = Top | AwaitingTask | AwaitingTime | Running | Stopped

  predicate Distinct(tasks: seq<SchedulerTask>) {
    forall i, j :: 0 <= i < j < |tasks| ==> tasks[i] != tasks[j]
  }

  class Worker {
    var tasks: seq<SchedulerTask>
    var place: Place
    // The local variables of `run` that live across a release of the lock.
    var nextTask: nat
    var task: SchedulerTask?
    var now: nat
    var diff: nat
    // All tasks ever dispatched here.
    ghost var all: seq<SchedulerTask>

    ghost predicate Valid()
      reads this, all
    {
      && Distinct(tasks) && Distinct(all)
      && (forall t :: t in tasks ==> t in all && !t.deleted)
      && (forall t :: t in all ==> (t in tasks || t.deleted) && t.Kept(place == Running && t == task))
      && (place == AwaitingTime || place == Running ==> nextTask < |tasks| && tasks[nextTask] == task)
      && (place == Running ==> task in all && task.started != [] && task.started[|task.started| - 1] <= now)
      && (place == AwaitingTime ==> task in all && diff > 0 && task.nextRun == now + diff)
    }

    /** Only the task that is started, if there is one, has a new time of starting, and that is the time given; none
        has finished. */
    twostate predicate StartedAt(time: nat)
      reads this, all
    {
      forall t :: t in old(all) && t in all ==>
                t.started == old(t.started) + (if place == Running && t == task then [time] else [])
                && t.finished == old(t.finished)
    }

    constructor ()
      ensures Valid() && all == [] && place == Top && now == 0
    {
      tasks, place, nextTask, task, now, diff, all := [], Top, 0, null, 0, 0, [];
    }

    /** The first of the tasks due soonest. */
    method Earliest() returns (next: nat)
      requires tasks != []
      ensures next < |tasks|
      ensures forall i :: 0 <= i < |tasks| ==> tasks[next].nextRun <= tasks[i].nextRun
      ensures forall i :: 0 <= i < next ==> tasks[next].nextRun < tasks[i].nextRun
    {
      next := 0;
      for i := 1 to |tasks|
        invariant next < i
        invariant forall k :: 0 <= k < i ==> tasks[next].nextRun <= tasks[k].nextRun
        invariant forall k :: 0 <= k < next ==> tasks[next].nextRun < tasks[k].nextRun
      {
        if tasks[i].nextRun < tasks[next].nextRun {
          next := i;
        }
      }
    }

    /** No task in the list is due before this one. */
    ghost predicate Soonest()
      reads this, tasks, task
      requires task != null
    {
      forall i :: 0 <= i < |tasks| ==> task.nextRun <= tasks[i].nextRun
    }

    method DropTask()
      requires nextTask < |tasks| && Distinct(tasks) && tasks[nextTask] == task
      modifies this`tasks
      ensures Distinct(tasks) && |tasks| == |old(tasks)| - 1
      ensures forall t :: t in tasks <==> t in old(tasks) && t != task
    {
      ghost var before := tasks;
      tasks := tasks[..nextTask] + tasks[nextTask + 1..];
      Without(before, nextTask, tasks);
    }

    /** `m_tasks.remove(nextTask); delete task`: the list and the pointer must speak of the same task. */
    method RemoveTask()
      requires Valid() && place != Running && nextTask < |tasks| && tasks[nextTask] == task
      modifies this`tasks, this`place, task`deleted
      ensures Valid() && place == Top && all == old(all)
      ensures task.deleted && task !in tasks && |tasks| == |old(tasks)| - 1
      ensures forall t :: t in tasks <==> t in old(tasks) && t != task
    {
      hide SchedulerTask.Kept, Distinct;
      assert task in tasks;
      DropTask();
      task.Delete();
      place := Top;
    }

    /** The worker goes to sleep until the task is due, or starts it. */
    method StartOrWait(time: nat)
      requires Valid() && place != Running && nextTask < |tasks| && tasks[nextTask] == task && time >= now
      modifies this`place, this`now, this`diff, task`started
      ensures Valid() && now == time && all == old(all) && tasks == old(tasks) && task == old(task)
      ensures place == if old(task.nextRun) > time then AwaitingTime else Running
      ensures place == AwaitingTime ==> diff == task.nextRun - time
      ensures StartedAt(time)
    {
      hide SchedulerTask.Kept, Distinct;
      assert task in tasks;
      now := time;
      if task.nextRun > now {
        diff := task.nextRun - now;
        place := AwaitingTime;
      } else {
        place := Running;
        task.Start(now);
      }
    }

    /** One time around the loop, until the lock is released or the loop starts over. */
    method Turn(parentRunning: bool, time: nat)
      requires Valid() && place == Top && time >= now
      modifies this, all
      ensures Valid() && all == old(all)
      ensures place == Stopped <==> !parentRunning
      ensures place == AwaitingTask <==> parentRunning && old(tasks) == []
      ensures place == Top ==> task != null && task.cancelled && task.deleted && |tasks| == |old(tasks)| - 1
      ensures place != Top ==> tasks == old(tasks)
      ensures place == AwaitingTime || place == Running ==>
                task != null && !task.cancelled && (task.nextRun <= time <==> place == Running) && Soonest()
      ensures now == if place == AwaitingTime || place == Running then time else old(now)
      ensures StartedAt(time)
    {
      if !parentRunning {
        place := Stopped;
        return;
      }
      if tasks == [] {
        place := AwaitingTask;
        return;
      }
      Choose(time);
    }

    /** The task that is due first. */
    method Choose(time: nat)
      requires Valid() && place == Top && time >= now && tasks != []
      modifies this, all
      ensures Valid() && all == old(all)
      ensures place == Top || place == AwaitingTime || place == Running
      ensures place == Top ==> task != null && task.cancelled && task.deleted && |tasks| == |old(tasks)| - 1
      ensures place != Top ==> tasks == old(tasks)
      ensures place == AwaitingTime || place == Running ==>
                task != null && !task.cancelled && (task.nextRun <= time <==> place == Running) && Soonest()
      ensures now == if place == Top then old(now) else time
      ensures StartedAt(time)
    {
      hide SchedulerTask.Kept, Distinct;
      nextTask := Earliest();
      task := tasks[nextTask];
      assert task in tasks;
      Consider(time);
    }

    /** A task that was cancelled goes; another is started or waited for. */
    method Consider(time: nat)
      requires Valid() && place != Running && nextTask < |tasks| && tasks[nextTask] == task && time >= now
      modifies this`tasks, this`place, this`now, this`diff, task`deleted, task`started
      ensures Valid() && all == old(all) && task == old(task)
      ensures task.cancelled ==> place == Top && task.deleted && |tasks| == |old(tasks)| - 1 && now == old(now)
      ensures !task.cancelled ==>
                tasks == old(tasks) && now == time && place == if task.nextRun <= time then Running else AwaitingTime
      ensures StartedAt(time)
    {
      hide SchedulerTask.Kept, Distinct;
      if task.cancelled {
        RemoveTask();
        return;
      }
      StartOrWait(time);
    }

    /** Waiting for a task ends with a signal, or without reason. */
    method Woken()
      requires Valid() && place == AwaitingTask
      modifies this`place
      ensures Valid() && place == Top
    {
      place := Top;
    }

    /** Waiting for the time ends with a signal, which means a new task, or because the time is over. */
    method WaitOver(signalled: bool, time: nat)
      requires Valid() && place == AwaitingTime && time >= now
      modifies this, all
      ensures Valid() && all == old(all)
      ensures signalled ==> place == Top && tasks == old(tasks)
      ensures !signalled && place == Top ==>
              task != null && task.cancelled && task.deleted && |tasks| == |old(tasks)| - 1
      ensures place != Top ==>
              task != null && !task.cancelled && (task.nextRun <= time <==> place == Running) && tasks == old(tasks)
      ensures now == if place == Top then old(now) else time
      ensures StartedAt(time)
    {
      hide SchedulerTask.Kept, Distinct;
      assert task in tasks;
      if signalled {
        place := Top;
        return;
      }
      Consider(time);
    }

    /** The task's function has returned, and the worker has its lock again. */
    method Finish(time: nat)
      requires Valid() && place == Running && time >= now
      modifies this, all
      ensures Valid() && place == Top && all == old(all)
      ensures now == time && task == old(task)
      ensures forall t :: t in all ==> t.started == old(t.started)
                                       && t.finished == old(t.finished) + if t == task then [time] else []
      ensures task in tasks <==> task.isRegular
      ensures task.isRegular ==> task.nextRun == time + task.interval
    {
      hide SchedulerTask.Kept, Distinct;
      assert task in tasks;
      now := time;
      place := Top;
      if task.isRegular {
        task.Reschedule(now);
      } else {
        DropTask();
        task.Retire(now);
      }
    }

    /** `dispatchTask`, for the worker it chose: it needs the lock. */
    method Dispatch(t: SchedulerTask)
      requires Valid() && place != Top && t !in all && t.Kept(false) && !t.deleted && t.started == []
      modifies this`tasks, this`all
      ensures Valid() && tasks == old(tasks) + [t] && all == old(all) + [t] && place == old(place)
    {
      tasks := tasks + [t];
      all := all + [t];
    }

    method Cancel(t: SchedulerTask)
      requires Valid() && t in all && !t.deleted
      modifies t`cancelled
      ensures Valid() && t.cancelled
    {
      hide SchedulerTask.Kept, Distinct;
      t.cancelled := true;
    }
  }

  lemma Without(tasks: seq<SchedulerTask>, i: nat, left: seq<SchedulerTask>)
    requires i < |tasks| && Distinct(tasks) && left == tasks[..i] + tasks[i + 1..]
    ensures Distinct(left) && (forall t :: t in left <==> t in tasks && t != tasks[i])
  {
    forall t | t in tasks && t != tasks[i]
      ensures t in left
    {
      var k :| 0 <= k < |tasks| && tasks[k] == t;
      assert left[if k < i then k else k - 1] == t;
    }
    forall j | 0 <= j < |left|
      ensures left[j] == tasks[if j < i then j else j + 1]
    {
    }
  }

  // Whole lives.

  /** Some time passes, and then something happens. */
  datatype Event = Event(elapsed: nat, what: Happening)

  datatype Happening =
    | Goes(parentRunning: bool, signalled: bool)
    | Dispatched(delay: nat, interval: nat, regular: bool)
    | Cancelled(which: nat)

  /** What the clock shows at the k-th event. */
  function Clock(events: seq<Event>, k: nat): nat
    requires k <= |events|
  {
    if k == 0 then 0 else Clock(events, k - 1) + events[k - 1].elapsed
  }

  /** The time is that of a step of the worker among the first n events. */
  ghost predicate SteppedAt(events: seq<Event>, n: nat, time: nat)
    requires n <= |events|
  {
    exists k: nat :: SteppedWith(events, n, time, k)
  }

  ghost predicate SteppedWith(events: seq<Event>, n: nat, time: nat, k: nat)
    requires n <= |events|
  {
    0 < k <= n && events[k - 1].what.Goes? && time == Clock(events, k)
  }

  /** The task was dispatched among the first n events, with the delay and the interval it has. */
  ghost predicate DispatchedWith(events: seq<Event>, n: nat, t: SchedulerTask, k: nat)
    requires n <= |events|
  {
    0 < k <= n && DispatchedAs(t, Clock(events, k), events[k - 1].what)
  }

  ghost predicate DispatchedAs(t: SchedulerTask, clock: nat, e: Happening) {
    e.Dispatched? && t.due == clock + e.delay && t.interval == e.interval && t.isRegular == e.regular
  }

  ghost predicate WasDispatched(events: seq<Event>, n: nat, t: SchedulerTask)
    requires n <= |events|
  {
    exists k: nat :: DispatchedWith(events, n, t, k)
  }

  ghost predicate AllStepped(events: seq<Event>, n: nat, times: seq<nat>)
    requires n <= |events|
  {
    forall i :: 0 <= i < |times| ==> SteppedAt(events, n, times[i])
  }

  /** All that the task records is what the clock showed at such events. */
  ghost predicate Traced(events: seq<Event>, n: nat, t: SchedulerTask)
    requires n <= |events|
    reads t
  {
    && WasDispatched(events, n, t)
    && AllStepped(events, n, t.started) && AllStepped(events, n, t.finished)
  }

  /** At most this time has been added, and that only by a step. */
  predicate Longer(times: seq<nat>, was: seq<nat>, time: nat, step: bool) {
    times == was || (step && times == was + [time])
  }

  method Happen(w: Worker, e: Happening, clock: nat)
    requires w.Valid() && w.now <= clock
    modifies w, w.all
    ensures w.Valid() && w.now <= clock && old(w.all) <= w.all
    ensures forall t :: t in old(w.all) ==> Longer(t.started, old(t.started), clock, e.Goes?)
    ensures forall t :: t in old(w.all) ==> Longer(t.finished, old(t.finished), clock, e.Goes?)
    ensures forall k :: |old(w.all)| <= k < |w.all| ==> fresh(w.all[k]) && IsNew(w.all[k], clock, e)
  {
    match e {
      case Goes(parentRunning, signalled) => GoOn(w, parentRunning, signalled, clock);
      case Dispatched(delay, interval, regular) => DispatchOne(w, delay, interval, regular, clock);
      case Cancelled(which) => CancelOne(w, which);
    }
  }

  ghost predicate IsNew(t: SchedulerTask, clock: nat, e: Happening)
    reads t
  {
    DispatchedAs(t, clock, e) && t.started == [] && t.finished == []
  }

  /** The thread takes its next step, wherever it stands. */
  method GoOn(w: Worker, parentRunning: bool, signalled: bool, clock: nat)
    requires w.Valid() && w.now <= clock
    modifies w, w.all
    ensures w.Valid() && w.all == old(w.all) && w.now <= clock
    ensures forall t :: t in w.all ==> Longer(t.started, old(t.started), clock, true)
    ensures forall t :: t in w.all ==> Longer(t.finished, old(t.finished), clock, true)
  {
    match w.place {
      case Top => w.Turn(parentRunning, clock);
      case AwaitingTask => w.Woken();
      case AwaitingTime => w.WaitOver(signalled, clock);
      case Running => w.Finish(clock);
      case Stopped =>
    }
  }

  method DispatchOne(w: Worker, delay: nat, interval: nat, regular: bool, clock: nat)
    requires w.Valid()
    modifies w, w.all
    ensures w.Valid() && w.now == old(w.now) && old(w.all) <= w.all
    ensures forall t :: t in old(w.all) ==> t.started == old(t.started) && t.finished == old(t.finished)
    ensures forall k :: |old(w.all)| <= k < |w.all| ==>
              fresh(w.all[k]) && IsNew(w.all[k], clock, Dispatched(delay, interval, regular))
  {
    if w.place != Top {
      var t := new SchedulerTask(clock + delay, interval, regular);
      w.Dispatch(t);
    }
  }

  method CancelOne(w: Worker, which: nat)
    requires w.Valid()
    modifies w.all
    ensures w.Valid() && w.all == old(w.all) && w.now == old(w.now)
    ensures forall t :: t in w.all ==> t.started == old(t.started) && t.finished == old(t.finished)
  {
    if which < |w.tasks| {
      assert w.tasks[which] in w.tasks;
      w.Cancel(w.tasks[which]);
    }
  }

  lemma SteppedLater(events: seq<Event>, n: nat, times: seq<nat>, was: seq<nat>)
    requires n < |events| && AllStepped(events, n, was)
    requires Longer(times, was, Clock(events, n + 1), events[n].what.Goes?)
    ensures AllStepped(events, n + 1, times)
  {
    forall i | 0 <= i < |times|
      ensures SteppedAt(events, n + 1, times[i])
    {
      if i < |was| {
        var k: nat :| SteppedWith(events, n, was[i], k);
        assert SteppedWith(events, n + 1, times[i], k);
      } else {
        assert SteppedWith(events, n + 1, times[i], n + 1);
      }
    }
  }

  lemma DispatchedLater(events: seq<Event>, n: nat, t: SchedulerTask)
    requires n < |events| && WasDispatched(events, n, t)
    ensures WasDispatched(events, n + 1, t)
  {
    var k: nat :| DispatchedWith(events, n, t, k);
    assert DispatchedWith(events, n + 1, t, k);
  }

  lemma TracedFirst(events: seq<Event>, n: nat, t: SchedulerTask)
    requires n < |events| && IsNew(t, Clock(events, n + 1), events[n].what)
    ensures Traced(events, n + 1, t)
  {
    assert DispatchedWith(events, n + 1, t, n + 1);
  }

  /** The next event, when the clock shows what it does then. */
  method Next(w: Worker, events: seq<Event>, i: nat, clock: nat)
    requires i < |events| && w.Valid() && w.now <= clock == Clock(events, i + 1)
    requires forall k :: 0 <= k < |w.all| ==> Traced(events, i, w.all[k])
    modifies w, w.all
    ensures w.Valid() && w.now <= clock && old(w.all) <= w.all
    ensures forall k :: |old(w.all)| <= k < |w.all| ==> fresh(w.all[k])
    ensures forall k :: 0 <= k < |w.all| ==> Traced(events, i + 1, w.all[k])
  {
    hide SteppedAt, DispatchedWith, Clock;
    Happen(w, events[i].what, clock);
    forall k | 0 <= k < |w.all|
      ensures Traced(events, i + 1, w.all[k])
    {
      if k < |old(w.all)| {
        assert w.all[k] == old(w.all)[k];
        DispatchedLater(events, i, w.all[k]);
        SteppedLater(events, i, w.all[k].started, old(w.all[k].started));
        SteppedLater(events, i, w.all[k].finished, old(w.all[k].finished));
      } else {
        TracedFirst(events, i, w.all[k]);
      }
    }
  }

  /** Whatever happens: every task dispatched is in the list or deleted, and has been started by the clock of the
      events: never before its delay was over, again only an interval after it finished, once if it is not regular. */
  method Live(events: seq<Event>) returns (w: Worker)
    ensures fresh(w) && w.Valid()
    ensures forall t :: t in w.all ==> (t in w.tasks <==> !t.deleted)
    ensures forall t :: t in w.all ==> Traced(events, |events|, t)
    ensures forall t, i :: t in w.all && 0 <= i < |t.started| ==>
              t.started[i] >= if i == 0 then t.due else t.finished[i - 1] + t.interval
    ensures forall t :: t in w.all && !t.isRegular ==> |t.started| <= 1
  {
    w := new Worker();
    var clock := 0;
    for i := 0 to |events|
      invariant fresh(w) && w.Valid() && w.now <= clock == Clock(events, i)
      invariant forall k :: 0 <= k < |w.all| ==> fresh(w.all[k]) && Traced(events, i, w.all[k])
    {
      clock := clock + events[i].elapsed;
      Next(w, events, i, clock);
    }
  }
}
