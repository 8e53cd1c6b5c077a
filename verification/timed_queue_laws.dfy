/** What calls and ticks of a `TimedQueue` do, said without the queue's own operations. */
module TimedQueueLaws {
  import opened TimedQueues
  import opened TimedQueueRuns

  // ------------------------------------------------------------ what is stored

  /** A plain list, without a bound, after some calls. */
  function Plain(q: seq<Task>, calls: seq<Call>): seq<Task> {
    if calls == [] then q
    else
      match calls[|calls| - 1]
      case Enqueue(task) => Plain(q, calls[..|calls| - 1]) + [task]
      case Clear => []
      case Start => Plain(q, calls[..|calls| - 1])
      case Stop => Plain(q, calls[..|calls| - 1])
  }

  /** The tasks that some calls enqueue. */
  function Offered(calls: seq<Call>): seq<Task> {
    if calls == [] then []
    else
      var last := calls[|calls| - 1];
      Offered(calls[..|calls| - 1]) + (if last.Enqueue? then [last.task] else [])
  }

  /** Is the timer running after some calls? */
  function Switched(active: bool, calls: seq<Call>): bool {
    if calls == [] then active
    else
      match calls[|calls| - 1]
      case Enqueue(_) => Switched(active, calls[..|calls| - 1])
      case Clear => false
      case Start => true
      case Stop => false
  }

  /** None of the calls finds the list full. */
  predicate Roomy(max: int, q: seq<Task>, calls: seq<Call>) {
    forall j :: 0 <= j < |calls| && calls[j].Enqueue? ==> |Plain(q, calls[..j])| < max
  }

  /** With room for it a task is stored at the back, and that is all; without, and with
      nothing connected to the signal, the queue keeps the last `max` tasks, the new one
      included. */
  lemma LastTasksKept(max: int, s: State, task: Task)
    requires max >= 1 && s.status.Running?
    ensures var t, all := AfterEnqueue(max, [], s, task), s.queue + [task];
            var n := if |all| <= max then 0 else |all| - max;
            && t.queue == all[n..]
            && t.removals == s.removals + DropAll(all[..n])
            && t.signals == (if n == 0 then s.signals else s.signals + [n])
            && t.entered == s.entered + [task] && t.active == s.active && t.status == Running
  {
    var all := s.queue + [task];
    if |s.queue| < max {
      assert all[0..] == all && s.removals + DropAll(all[..0]) == s.removals;
    } else {
      var n := |s.queue| - max + 1;
      assert all[..n] == s.queue[..n] && all[n..] == s.queue[n..] + [task];
    }
  }

  /** With room nothing is connected to what happens: the slot plays no part. */
  lemma RoomForOne(max: int, slot: seq<Call>, s: State, task: Task)
    requires |s.queue| < max && s.status.Running?
    ensures var t := AfterEnqueue(max, slot, s, task);
            && t.queue == s.queue + [task] && t.entered == s.entered + [task]
            && t.removals == s.removals && t.signals == s.signals && t.active == s.active && t.status == Running
  {
  }

  lemma RoomyNext(max: int, q: seq<Task>, calls: seq<Call>)
    requires calls != [] && Roomy(max, q, calls)
    ensures Roomy(max, q, calls[..|calls| - 1])
    ensures calls[|calls| - 1].Enqueue? ==> |Plain(q, calls[..|calls| - 1])| < max
  {
    var before := calls[..|calls| - 1];
    forall j | 0 <= j < |before| && before[j].Enqueue?
      ensures |Plain(q, before[..j])| < max
    {
      assert before[..j] == calls[..j] && calls[j] == before[j];
    }
  }

  lemma CallIsPlain(max: int, slot: seq<Call>, s: State, c: Call)
    requires s.status.Running? && (c.Enqueue? ==> |s.queue| < max)
    ensures var t := AfterCall(max, slot, s, c);
            && t.queue == (if c.Enqueue? then s.queue + [c.task] else if c.Clear? then [] else s.queue)
            && t.entered == (if c.Enqueue? then s.entered + [c.task] else s.entered)
            && t.active == (c.Start? || (c.Enqueue? && s.active))
            && t.signals == s.signals && t.status == Running
  {
  }

  lemma CallsNext(max: int, slot: seq<Call>, s: State, calls: seq<Call>)
    requires calls != [] && AfterCalls(max, slot, s, calls[..|calls| - 1]).status.Running?
    ensures AfterCalls(max, slot, s, calls)
         == AfterCall(max, slot, AfterCalls(max, slot, s, calls[..|calls| - 1]), calls[|calls| - 1])
  {
  }

  /** While there is room, the calls of a task act on a plain list. */
  lemma {:induction false} CallsArePlain(max: int, slot: seq<Call>, s: State, calls: seq<Call>)
    requires s.status.Running? && Roomy(max, s.queue, calls)
    ensures var t := AfterCalls(max, slot, s, calls);
            && t.queue == Plain(s.queue, calls) && t.entered == s.entered + Offered(calls)
            && t.active == Switched(s.active, calls) && t.signals == s.signals && t.status == Running
  {
    if calls == [] {
    } else {
      RoomyNext(max, s.queue, calls);
      CallsArePlain(max, slot, s, calls[..|calls| - 1]);
      CallsNext(max, slot, s, calls);
      CallIsPlain(max, slot, AfterCalls(max, slot, s, calls[..|calls| - 1]), calls[|calls| - 1]);
    }
  }

  /** The calls of the slot, if it returns, act on a plain list too. */
  lemma {:induction false} SlotIsPlain(max: int, s: State, calls: seq<Call>)
    requires s.status.Running? && AfterSlot(max, s, calls).status.Running?
    ensures var t := AfterSlot(max, s, calls);
            && t.queue == Plain(s.queue, calls) && t.entered == s.entered + Offered(calls)
            && t.active == Switched(s.active, calls) && t.signals == s.signals
  {
    if calls == [] {
    } else {
      SlotIsPlain(max, s, calls[..|calls| - 1]);
    }
  }

  /** An overflow drops the oldest tasks until one more fits, makes the calls of the
      slot, and then stores the new task at the back; it does all that unless the slot
      overflows the queue again. */
  lemma OverflowStores(max: int, slot: seq<Call>, s: State, task: Task)
    requires max >= 1 && |s.queue| >= max && s.status.Running?
    ensures var t, n := AfterEnqueue(max, slot, s, task), |s.queue| - max + 1;
            && (t.status.Running? <==> !Loops(max, slot))
            && (t.status.Running? ==>
                && t.queue == Plain(s.queue[n..], slot) + [task]
                && t.entered == s.entered + Offered(slot) + [task]
                && t.active == Switched(s.active, slot)
                && t.signals == s.signals + [n])
  {
    var dropped := AfterDrop(s, |s.queue| - max + 1);
    SlotCount(max, dropped, slot);
    if !Loops(max, slot) {
      SlotIsPlain(max, dropped, slot);
    }
  }

  // --------------------------------------------------------- what is executed

  lemma ExecutedAppend(a: seq<Removal>, b: seq<Removal>)
    requires forall i :: 0 <= i < |b| ==> !b[i].Executed?
    ensures ExecutedTasks(a + b) == ExecutedTasks(a)
  {
    if b == [] {
      assert a + b == a;
    } else {
      ExecutedAppend(a, b[..|b| - 1]);
      assert (a + b)[..|a + b| - 1] == a + b[..|b| - 1];
    }
  }

  lemma SlotCallExecutesNothing(max: int, s: State, c: Call)
    ensures ExecutedTasks(AfterSlotCall(max, s, c).removals) == ExecutedTasks(s.removals)
  {
    ExecutedAppend(s.removals, ClearAll(s.queue));
  }

  lemma {:induction false} SlotExecutesNothing(max: int, s: State, calls: seq<Call>)
    ensures ExecutedTasks(AfterSlot(max, s, calls).removals) == ExecutedTasks(s.removals)
  {
    if calls == [] {
    } else {
      SlotExecutesNothing(max, s, calls[..|calls| - 1]);
      SlotCallExecutesNothing(max, AfterSlot(max, s, calls[..|calls| - 1]), calls[|calls| - 1]);
    }
  }

  lemma CallExecutesNothing(max: int, slot: seq<Call>, s: State, c: Call)
    ensures ExecutedTasks(AfterCall(max, slot, s, c).removals) == ExecutedTasks(s.removals)
  {
    match c
    case Enqueue(task) =>
      if max < 1 {
        ExecutedAppend(s.removals, DropAll(s.queue));
      } else if |s.queue| >= max {
        var n := Excess(max, s.queue);
        ExecutedAppend(s.removals, DropAll(s.queue[..n]));
        SlotExecutesNothing(max, AfterDrop(s, n), slot);
      }
    case Clear => ExecutedAppend(s.removals, ClearAll(s.queue));
    case Start =>
    case Stop =>
  }

  lemma {:induction false} CallsExecuteNothing(max: int, slot: seq<Call>, s: State, calls: seq<Call>)
    ensures ExecutedTasks(AfterCalls(max, slot, s, calls).removals) == ExecutedTasks(s.removals)
  {
    if calls == [] {
    } else {
      var before := AfterCalls(max, slot, s, calls[..|calls| - 1]);
      CallsExecuteNothing(max, slot, s, calls[..|calls| - 1]);
      CallExecutesNothing(max, slot, before, calls[|calls| - 1]);
    }
  }

  lemma ExecutedSnoc(removals: seq<Removal>, task: Task)
    ensures ExecutedTasks(removals + [Executed(task)]) == ExecutedTasks(removals) + [task]
  {
  }

  /** When the timer fires, the oldest task and no other is executed. While there is
      room, what remains is the other tasks and the effect of its calls on them. */
  lemma ConsumeTakesFirst(max: int, slot: seq<Call>, s: State, task: Task, rest: seq<Task>)
    requires s.queue == [task] + rest && s.status.Running?
    ensures var t := AfterConsume(max, slot, s);
            && ExecutedTasks(t.removals) == ExecutedTasks(s.removals) + [task]
            && (Roomy(max, rest, task.calls) ==>
                && t.queue == Plain(rest, task.calls) && t.entered == s.entered + Offered(task.calls)
                && t.active == Switched(s.active, task.calls) && t.signals == s.signals && t.status == Running)
  {
    var taken := s.(queue := s.queue[1..], removals := s.removals + [Executed(task)]);
    assert s.queue[1..] == rest;
    ExecutedSnoc(s.removals, task);
    CallsExecuteNothing(max, slot, taken, task.calls);
    if Roomy(max, rest, task.calls) {
      CallsArePlain(max, slot, taken, task.calls);
    }
  }

  /** A task that makes no calls leaves the others as they are. */
  lemma ConsumeCallless(max: int, slot: seq<Call>, s: State, task: Task, rest: seq<Task>)
    requires s.queue == [task] + rest && task.calls == []
    ensures AfterConsume(max, slot, s) == s.(queue := rest, removals := s.removals + [Executed(task)])
  {
  }

  /** A task that enqueues another one puts it behind the rest. */
  lemma ConsumeRequeues(max: int, slot: seq<Call>, s: State, task: Task, rest: seq<Task>, b: Task)
    requires s.queue == [task] + rest && task.calls == [Enqueue(b)] && |rest| < max && s.status.Running?
    ensures AfterConsume(max, slot, s).queue == rest + [b]
  {
    assert task.calls[..0] == [];
    assert Plain(rest, task.calls) == Plain(rest, []) + [b];
    ConsumeTakesFirst(max, slot, s, task, rest);
  }

  // --------------------------------------------------------------- over runs

  function Ticks(n: nat): seq<Event> {
    seq(n, _ => Tick)
  }

  function ExecuteAll(tasks: seq<Task>): seq<Removal> {
    seq(|tasks|, i requires 0 <= i < |tasks| => Executed(tasks[i]))
  }

  lemma RunNext(max: int, slot: seq<Call>, run: seq<Event>, e: Event)
    ensures AfterRun(max, slot, run + [e]) == AfterEvent(max, slot, AfterRun(max, slot, run), e)
  {
  }

  /** The state in which the first `n` tasks have been executed. */
  function Worked(s: State, n: nat): State
    requires n <= |s.queue|
  {
    s.(queue := s.queue[n..], removals := s.removals + ExecuteAll(s.queue[..n]))
  }

  lemma OneMoreTick(max: int, slot: seq<Call>, s: State, n: nat)
    requires s.active && s.status.Running? && 0 < n <= |s.queue| && s.queue[n - 1].calls == []
    ensures AfterEvent(max, slot, Worked(s, n - 1), Tick) == Worked(s, n)
  {
    var q := s.queue[n - 1..];
    ConsumeCallless(max, slot, Worked(s, n - 1), q[0], q[1..]);
    assert q == [q[0]] + q[1..] && q[1..] == s.queue[n..];
    assert ExecuteAll(s.queue[..n]) == ExecuteAll(s.queue[..n - 1]) + [Executed(s.queue[n - 1])];
    assert s.removals + ExecuteAll(s.queue[..n])
        == (s.removals + ExecuteAll(s.queue[..n - 1])) + [Executed(s.queue[n - 1])];
  }

  /** The running timer works off tasks that make no calls one by one, in order: after
      `n` ticks exactly the first `n` are executed. */
  lemma {:induction false} TicksExecute(max: int, slot: seq<Call>, run: seq<Event>, n: nat)
    requires var s := AfterRun(max, slot, run); s.active && s.status.Running? && n <= |s.queue|
    requires forall i :: 0 <= i < n ==> AfterRun(max, slot, run).queue[i].calls == []
    ensures var s := AfterRun(max, slot, run);
            var executed := s.removals + ExecuteAll(s.queue[..n]);
            AfterRun(max, slot, run + Ticks(n)) == s.(queue := s.queue[n..], removals := executed)
  {
    var s := AfterRun(max, slot, run);
    if n == 0 {
      assert run + Ticks(0) == run && s.removals + ExecuteAll(s.queue[..0]) == s.removals;
    } else {
      TicksExecute(max, slot, run, n - 1);
      assert run + Ticks(n) == (run + Ticks(n - 1)) + [Tick];
      RunNext(max, slot, run + Ticks(n - 1), Tick);
      OneMoreTick(max, slot, s, n);
    }
  }

  /** `start`, `stop` and `clear` from outside: clear also takes every task out. */
  lemma TimerSwitched(max: int, slot: seq<Call>, run: seq<Event>)
    requires AfterRun(max, slot, run).status.Running?
    ensures var s := AfterRun(max, slot, run);
            && AfterRun(max, slot, run + [Outside(Start)]) == s.(active := true)
            && AfterRun(max, slot, run + [Outside(Stop)]) == s.(active := false)
            && AfterRun(max, slot, run + [Outside(Clear)]) == s.(queue := [], active := false,
                                                                 removals := s.removals + ClearAll(s.queue))
  {
    RunNext(max, slot, run, Outside(Start));
    RunNext(max, slot, run, Outside(Stop));
    RunNext(max, slot, run, Outside(Clear));
  }

  predicate NoStart(slot: seq<Call>, run: seq<Event>) {
    && (forall i :: 0 <= i < |slot| ==> !slot[i].Start?)
    && (forall i :: 0 <= i < |run| ==> !(run[i].Outside? && run[i].call.Start?))
  }

  lemma {:induction false} SlotStaysStopped(max: int, s: State, calls: seq<Call>)
    requires !s.active && forall i :: 0 <= i < |calls| ==> !calls[i].Start?
    ensures !AfterSlot(max, s, calls).active
  {
    if calls == [] {
    } else {
      SlotStaysStopped(max, s, calls[..|calls| - 1]);
    }
  }

  /** Once the timer is stopped, and until it is started again, its ticks execute
      nothing. */
  lemma {:induction false} StoppedExecutesNothing(max: int, slot: seq<Call>, run: seq<Event>, more: seq<Event>)
    requires !AfterRun(max, slot, run).active && NoStart(slot, more)
    ensures var s, t := AfterRun(max, slot, run), AfterRun(max, slot, run + more);
            !t.active && ExecutedTasks(t.removals) == ExecutedTasks(s.removals)
  {
    if more == [] {
      assert run + more == run;
    } else {
      var n := |more| - 1;
      StoppedExecutesNothing(max, slot, run, more[..n]);
      assert run + more == (run + more[..n]) + [more[n]];
      RunNext(max, slot, run + more[..n], more[n]);
      var s := AfterRun(max, slot, run + more[..n]);
      if s.status.Running? && more[n].Outside? {
        CallExecutesNothing(max, slot, s, more[n].call);
        if more[n].call.Enqueue? && |s.queue| >= max >= 1 {
          SlotStaysStopped(max, AfterDrop(s, Excess(max, s.queue)), slot);
        }
      }
    }
  }

  /** After a clear, until the next start: no task that was there or comes later is
      executed. */
  lemma ClearStopsTimer(max: int, slot: seq<Call>, run: seq<Event>, more: seq<Event>)
    requires AfterRun(max, slot, run).status.Running? && NoStart(slot, more)
    ensures ExecutedTasks(AfterRun(max, slot, run + [Outside(Clear)] + more).removals)
         == ExecutedTasks(AfterRun(max, slot, run).removals)
  {
    TimerSwitched(max, slot, run);
    StoppedExecutesNothing(max, slot, run + [Outside(Clear)], more);
    ExecutedAppend(AfterRun(max, slot, run).removals, ClearAll(AfterRun(max, slot, run).queue));
  }

  // ------------------------------------------------------- what comes in over runs

  /** The tasks enqueued from outside. */
  function OutsideTasks(run: seq<Event>): seq<Task> {
    if run == [] then []
    else
      var last := run[|run| - 1];
      OutsideTasks(run[..|run| - 1]) + (if last.Outside? then Offered([last.call]) else [])
  }

  /** The tasks that some tasks enqueue when they are executed. */
  function Made(tasks: seq<Task>): multiset<Task> {
    if tasks == [] then multiset{} else Made(tasks[..|tasks| - 1]) + multiset(Offered(tasks[|tasks| - 1].calls))
  }

  function Copies(n: nat, tasks: multiset<Task>): multiset<Task> {
    if n == 0 then multiset{} else Copies(n - 1, tasks) + tasks
  }

  /** `given` and, for each emission of the signal, what the slot enqueues. */
  predicate Stored(slot: seq<Call>, s: State, given: multiset<Task>) {
    multiset(s.entered) == given + Copies(|s.signals|, multiset(Offered(slot)))
  }

  lemma OfferedOne(c: Call)
    ensures Offered([c]) == if c.Enqueue? then [c.task] else []
  {
    assert [c][..0] == [];
    assert Offered([c]) == Offered([c][..0]) + (if c.Enqueue? then [c.task] else []);
  }

  lemma EnqueueStored(max: int, slot: seq<Call>, s: State, task: Task, given: multiset<Task>)
    requires max >= 1 && s.status.Running? && Stored(slot, s, given)
    requires AfterEnqueue(max, slot, s, task).status.Running?
    ensures Stored(slot, AfterEnqueue(max, slot, s, task), given + multiset{task})
  {
    if |s.queue| < max {
      RoomForOne(max, slot, s, task);
    } else {
      SlotCount(max, AfterDrop(s, |s.queue| - max + 1), slot);
      OverflowStores(max, slot, s, task);
    }
  }

  lemma CallStored(max: int, slot: seq<Call>, s: State, c: Call, given: multiset<Task>)
    requires max >= 1 && s.status.Running? && Stored(slot, s, given)
    requires AfterCall(max, slot, s, c).status.Running?
    ensures Stored(slot, AfterCall(max, slot, s, c), given + multiset(Offered([c])))
  {
    OfferedOne(c);
    if c.Enqueue? {
      EnqueueStored(max, slot, s, c.task, given);
    }
  }

  lemma OfferedNext(calls: seq<Call>)
    requires calls != []
    ensures multiset(Offered(calls))
         == multiset(Offered(calls[..|calls| - 1])) + multiset(Offered([calls[|calls| - 1]]))
  {
    OfferedOne(calls[|calls| - 1]);
  }

  lemma {:induction false} CallsStored(max: int, slot: seq<Call>, s: State, calls: seq<Call>, given: multiset<Task>)
    requires max >= 1 && s.status.Running? && Stored(slot, s, given)
    requires AfterCalls(max, slot, s, calls).status.Running?
    ensures Stored(slot, AfterCalls(max, slot, s, calls), given + multiset(Offered(calls)))
  {
    if calls == [] {
    } else {
      var n := |calls| - 1;
      var made := multiset(Offered(calls[..n]));
      CallsStored(max, slot, s, calls[..n], given);
      CallStored(max, slot, AfterCalls(max, slot, s, calls[..n]), calls[n], given + made);
      OfferedNext(calls);
      assert given + multiset(Offered(calls)) == (given + made) + multiset(Offered([calls[n]]));
    }
  }

  lemma ConsumeStored(max: int, slot: seq<Call>, s: State, given: multiset<Task>)
    requires max >= 1 && s.status.Running? && Stored(slot, s, given) && s.queue != []
    requires AfterConsume(max, slot, s).status.Running?
    ensures Stored(slot, AfterConsume(max, slot, s), given + multiset(Offered(s.queue[0].calls)))
    ensures ExecutedTasks(AfterConsume(max, slot, s).removals) == ExecutedTasks(s.removals) + [s.queue[0]]
  {
    var task := s.queue[0];
    var taken := s.(queue := s.queue[1..], removals := s.removals + [Executed(task)]);
    CallsStored(max, slot, taken, task.calls, given);
    ConsumeTakesFirst(max, slot, s, task, s.queue[1..]);
  }

  lemma MadeNext(tasks: seq<Task>, task: Task)
    ensures Made(tasks + [task]) == Made(tasks) + multiset(Offered(task.calls))
  {
  }

  /** Every call of enqueue stores its task, exactly once: what was ever stored is what
      was enqueued from outside, by the tasks executed, and by the slot at each of its
      emissions. */
  lemma {:induction false} EveryCallStores(max: int, slot: seq<Call>, run: seq<Event>)
    requires max >= 1 && AfterRun(max, slot, run).status.Running?
    ensures var s := AfterRun(max, slot, run);
            multiset(s.entered) == multiset(OutsideTasks(run)) + Made(ExecutedTasks(s.removals))
                                 + Copies(|s.signals|, multiset(Offered(slot)))
  {
    if run == [] {
    } else {
      var n := |run| - 1;
      var s, out := AfterRun(max, slot, run[..n]), multiset(OutsideTasks(run[..n]));
      var made := Made(ExecutedTasks(s.removals));
      EveryCallStores(max, slot, run[..n]);
      if run[n].Outside? {
        CallStored(max, slot, s, run[n].call, out + made);
        CallExecutesNothing(max, slot, s, run[n].call);
      } else if s.active && s.queue != [] {
        ConsumeStored(max, slot, s, out + made);
        MadeNext(ExecutedTasks(s.removals), s.queue[0]);
      }
    }
  }

  lemma SubsequenceSnoc(a: seq<Task>, b: seq<Task>, task: Task)
    requires Subsequence(a, b)
    ensures Subsequence(a + [task], b + [task])
  {
    assert (a + [task])[..|a|] == a && (b + [task])[..|b|] == b;
  }

  lemma {:induction false} CallsOnlyAdd(max: int, slot: seq<Call>, s: State, calls: seq<Call>)
    ensures s.entered <= AfterCalls(max, slot, s, calls).entered
  {
    if calls == [] {
    } else {
      var before := AfterCalls(max, slot, s, calls[..|calls| - 1]);
      CallsOnlyAdd(max, slot, s, calls[..|calls| - 1]);
      CallOnlyAdds(max, slot, before, calls[|calls| - 1]);
    }
  }

  lemma CallOnlyAdds(max: int, slot: seq<Call>, s: State, c: Call)
    ensures s.entered <= AfterCall(max, slot, s, c).entered
  {
    if c.Enqueue? && |s.queue| >= max >= 1 {
      SlotOnlyAdds(max, AfterDrop(s, Excess(max, s.queue)), slot);
    }
  }

  lemma {:induction false} SlotOnlyAdds(max: int, s: State, calls: seq<Call>)
    ensures s.entered <= AfterSlot(max, s, calls).entered
  {
    if calls == [] {
    } else {
      SlotOnlyAdds(max, s, calls[..|calls| - 1]);
    }
  }

  lemma EnqueueEnters(max: int, slot: seq<Call>, s: State, task: Task, given: seq<Task>)
    requires max >= 1 && s.status.Running? && Subsequence(given, s.entered)
    requires AfterEnqueue(max, slot, s, task).status.Running?
    ensures Subsequence(given + [task], AfterEnqueue(max, slot, s, task).entered)
  {
    if |s.queue| < max {
      RoomForOne(max, slot, s, task);
      SubsequenceSnoc(given, s.entered, task);
    } else {
      OverflowStores(max, slot, s, task);
      SubsequenceExtends(given, s.entered, Offered(slot));
      SubsequenceSnoc(given, s.entered + Offered(slot), task);
    }
  }

  /** What is enqueued from outside comes in in that order. */
  lemma {:induction false} OutsideOrderKept(max: int, slot: seq<Call>, run: seq<Event>)
    requires max >= 1 && AfterRun(max, slot, run).status.Running?
    ensures Subsequence(OutsideTasks(run), AfterRun(max, slot, run).entered)
  {
    if run == [] {
    } else {
      var n := |run| - 1;
      var s, t := AfterRun(max, slot, run[..n]), AfterRun(max, slot, run);
      OutsideOrderKept(max, slot, run[..n]);
      if run[n].Outside? && run[n].call.Enqueue? {
        OfferedOne(run[n].call);
        EnqueueEnters(max, slot, s, run[n].call.task, OutsideTasks(run[..n]));
      } else {
        if run[n].Outside? {
          OfferedOne(run[n].call);
        } else if s.active && s.queue != [] {
          CallsOnlyAdd(max, slot, s.(queue := s.queue[1..], removals := s.removals + [Executed(s.queue[0])]),
                       s.queue[0].calls);
        }
        assert s.entered <= t.entered && OutsideTasks(run) == OutsideTasks(run[..n]);
        SubsequenceExtends(OutsideTasks(run), s.entered, t.entered[|s.entered|..]);
        assert t.entered == s.entered + t.entered[|s.entered|..];
      }
    }
  }

  lemma {:induction false} SubsequenceShorter(a: seq<Task>, b: seq<Task>)
    requires Subsequence(a, b)
    ensures |a| <= |b| && (|a| == |b| ==> a == b)
    decreases |b|
  {
    if a == [] || b == [] {
    } else {
      var a', b' := a[..|a| - 1], b[..|b| - 1];
      if Subsequence(a, b') {
        SubsequenceShorter(a, b');
      } else {
        SubsequenceShorter(a', b');
        assert a == a' + [a[|a| - 1]] && b == b' + [b[|b| - 1]];
      }
    }
  }

  /** So if neither the slot nor any task executed enqueues anything, exactly what came
      from outside was stored, in that order. */
  lemma OutsideOnly(max: int, slot: seq<Call>, run: seq<Event>)
    requires max >= 1 && AfterRun(max, slot, run).status.Running?
    requires Offered(slot) == [] && Made(ExecutedTasks(AfterRun(max, slot, run).removals)) == multiset{}
    ensures AfterRun(max, slot, run).entered == OutsideTasks(run)
  {
    var s := AfterRun(max, slot, run);
    EveryCallStores(max, slot, run);
    OutsideOrderKept(max, slot, run);
    NoCopies(|s.signals|);
    assert |multiset(s.entered)| == |s.entered| && |multiset(OutsideTasks(run))| == |OutsideTasks(run)|;
    SubsequenceShorter(OutsideTasks(run), s.entered);
  }

  lemma {:induction false} NoCopies(n: nat)
    ensures Copies(n, multiset{}) == multiset{}
  {
    if n == 0 {
    } else {
      NoCopies(n - 1);
    }
  }
}
