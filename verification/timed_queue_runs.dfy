/** Runs of a `TimedQueue`: what every run keeps, when the maximum is exceeded, and when
    it gets stuck. */
module TimedQueueRuns {
  import opened TimedQueues

  // ------------------------------------------------------------------- histories

  /** A call from outside, or the timer firing while it is active. */
  datatype Event = Outside(call: Call) | Tick

  function AfterEvent(max: int, slot: seq<Call>, s: State, e: Event): State {
    if !s.status.Running? then s
    else
      match e
      case Outside(c) => AfterCall(max, slot, s, c)
      case Tick => if s.active then AfterConsume(max, slot, s) else s
  }

  function AfterRun(max: int, slot: seq<Call>, run: seq<Event>): State {
    if run == [] then INITIAL
    else AfterEvent(max, slot, AfterRun(max, slot, run[..|run| - 1]), run[|run| - 1])
  }

  function Tasks(removals: seq<Removal>): (r: seq<Task>)
    ensures |r| == |removals| && forall i :: 0 <= i < |r| ==> r[i] == removals[i].task
  {
    seq(|removals|, i requires 0 <= i < |removals| => removals[i].task)
  }

  function DropCount(removals: seq<Removal>): nat {
    if removals == [] then 0
    else DropCount(removals[..|removals| - 1]) + (if removals[|removals| - 1].Dropped? then 1 else 0)
  }

  function Sum(numbers: seq<int>): int {
    if numbers == [] then 0 else Sum(numbers[..|numbers| - 1]) + numbers[|numbers| - 1]
  }

  /** What was ever stored is what left, in the order of leaving, and then the queue;
      every drop was signalled. */
  predicate Books(s: State) {
    s.entered == Tasks(s.removals) + s.queue && Sum(s.signals) == DropCount(s.removals)
  }

  /** The longest that the queue may have been. */
  function Bound(max: int, slot: seq<Call>, signals: seq<int>): nat {
    if max < 1 then 0 else if signals != [] && FillsUp(max, slot) then max + 1 else max
  }

  predicate Lengths(max: int, slot: seq<Call>, s: State) {
    && |s.queue| <= s.peak <= Bound(max, slot, s.signals)
    && (max >= 1 && s.signals != [] && FillsUp(max, slot) ==> s.peak == max + 1)
    && Between(s.signals, MostDropped(max, slot))
  }

  predicate Between(numbers: seq<int>, most: int) {
    forall i :: 0 <= i < |numbers| ==> 1 <= numbers[i] <= most
  }

  /** How many tasks one overflow can drop. */
  function MostDropped(max: int, slot: seq<Call>): int {
    if FillsUp(max, slot) then 2 else 1
  }

  lemma BetweenSnoc(numbers: seq<int>, n: int, most: int)
    requires Between(numbers, most) && 1 <= n <= most
    ensures Between(numbers + [n], most)
  {
  }

  predicate Ends(max: int, slot: seq<Call>, s: State) {
    && (s.status.AskedEmpty? ==> max < 1)
    && (s.status.NeverReturns? <==> s.signals != [] && Loops(max, slot))
    && (max < 1 ==> s.signals == [])
  }

  predicate Inv(max: int, slot: seq<Call>, s: State) {
    Books(s) && Lengths(max, slot, s) && Ends(max, slot, s)
  }

  lemma DropCountSnoc(removals: seq<Removal>, r: Removal)
    ensures DropCount(removals + [r]) == DropCount(removals) + (if r.Dropped? then 1 else 0)
  {
  }

  lemma {:induction false} DropCountDrop(removals: seq<Removal>, tasks: seq<Task>)
    ensures DropCount(removals + DropAll(tasks)) == DropCount(removals) + |tasks|
  {
    if tasks == [] {
      assert removals + DropAll(tasks) == removals;
    } else {
      var n := |tasks| - 1;
      DropCountDrop(removals, tasks[..n]);
      assert removals + DropAll(tasks) == (removals + DropAll(tasks[..n])) + [Dropped(tasks[n])];
      DropCountSnoc(removals + DropAll(tasks[..n]), Dropped(tasks[n]));
    }
  }

  lemma {:induction false} DropCountClear(removals: seq<Removal>, tasks: seq<Task>)
    ensures DropCount(removals + ClearAll(tasks)) == DropCount(removals)
  {
    if tasks == [] {
      assert removals + ClearAll(tasks) == removals;
    } else {
      var n := |tasks| - 1;
      DropCountClear(removals, tasks[..n]);
      assert removals + ClearAll(tasks) == (removals + ClearAll(tasks[..n])) + [Cleared(tasks[n])];
      DropCountSnoc(removals + ClearAll(tasks[..n]), Cleared(tasks[n]));
    }
  }

  lemma StoreKeepsBooks(s: State, task: Task)
    requires Books(s)
    ensures Books(AfterStore(s, task))
  {
  }

  lemma TasksAppend(a: seq<Removal>, b: seq<Removal>)
    ensures Tasks(a + b) == Tasks(a) + Tasks(b)
  {
  }

  lemma TasksOfAll(tasks: seq<Task>)
    ensures Tasks(DropAll(tasks)) == tasks && Tasks(ClearAll(tasks)) == tasks
  {
  }

  lemma SumSnoc(numbers: seq<int>, n: int)
    ensures Sum(numbers + [n]) == Sum(numbers) + n
  {
  }

  lemma MovePrefix(a: seq<Task>, b: seq<Task>, n: nat)
    requires n <= |b|
    ensures a + b == (a + b[..n]) + b[n..]
  {
  }

  lemma DropAccounted(entered: seq<Task>, removals: seq<Removal>, queue: seq<Task>, n: nat)
    requires n <= |queue| && entered == Tasks(removals) + queue
    ensures entered == Tasks(removals + DropAll(queue[..n])) + queue[n..]
  {
    TasksAppend(removals, DropAll(queue[..n]));
    TasksOfAll(queue[..n]);
    MovePrefix(Tasks(removals), queue, n);
  }

  lemma DropKeepsBooks(s: State, n: nat)
    requires Books(s) && n <= |s.queue|
    ensures Books(AfterDrop(s, n))
  {
    DropAccounted(s.entered, s.removals, s.queue, n);
    DropCountDrop(s.removals, s.queue[..n]);
    SumSnoc(s.signals, n);
  }

  lemma ClearKeepsBooks(s: State)
    requires Books(s)
    ensures Books(AfterClear(s))
  {
    DropCountClear(s.removals, s.queue);
    TasksAppend(s.removals, ClearAll(s.queue));
    TasksOfAll(s.queue);
  }

  lemma {:induction false} SlotKeepsBooks(max: int, s: State, calls: seq<Call>)
    requires max >= 1 && Books(s)
    ensures var t := AfterSlot(max, s, calls); Books(t) && t.signals == s.signals
    ensures |s.queue| <= s.peak ==> |AfterSlot(max, s, calls).queue| <= AfterSlot(max, s, calls).peak
    ensures s.peak <= AfterSlot(max, s, calls).peak <= Max(s.peak, max)
  {
    if calls == [] {
    } else {
      var n := |calls| - 1;
      SlotKeepsBooks(max, s, calls[..n]);
      var before := AfterSlot(max, s, calls[..n]);
      match calls[n]
      case Enqueue(task) => StoreKeepsBooks(before, task);
      case Clear => ClearKeepsBooks(before);
      case Start =>
      case Stop =>
    }
  }

  lemma EmptyEnqueueKeeps(max: int, slot: seq<Call>, s: State, task: Task)
    requires Inv(max, slot, s) && s.status.Running? && max < 1
    ensures Inv(max, slot, AfterEnqueue(max, slot, s, task))
  {
    assert s.queue == [];
    assert s.removals + DropAll(s.queue) == s.removals;
  }

  lemma RoomEnqueueKeeps(max: int, slot: seq<Call>, s: State, task: Task)
    requires Inv(max, slot, s) && s.status.Running? && |s.queue| < max
    ensures Inv(max, slot, AfterEnqueue(max, slot, s, task))
  {
    StoreKeepsBooks(s, task);
  }

  /** What an overflow leaves when its slot has run, or is stuck. */
  predicate Overflowed(max: int, slot: seq<Call>, s: State) {
    && max >= 1 && Books(s) && s.signals != []
    && Between(s.signals, MostDropped(max, slot))
    && |s.queue| <= s.peak <= (if FillsUp(max, slot) then max + 1 else max)
    && s.status == (if Loops(max, slot) then NeverReturns else Running)
    && (s.status.Running? ==> |s.queue| == Held(max - 1, slot) <= max)
  }

  lemma DropOverflows(max: int, slot: seq<Call>, s: State, dropped: State)
    requires Inv(max, slot, s) && s.status.Running? && |s.queue| >= max >= 1
    requires dropped == AfterDrop(s, Excess(max, s.queue))
    ensures Books(dropped) && dropped.status.Running? && |dropped.queue| == max - 1 <= dropped.peak
    ensures dropped.peak <= (if FillsUp(max, slot) then max + 1 else max)
    ensures dropped.signals != [] && Between(dropped.signals, MostDropped(max, slot))
  {
    var n := Excess(max, s.queue);
    DropKeepsBooks(s, n);
    assert 1 <= n <= MostDropped(max, slot);
    BetweenSnoc(s.signals, n, MostDropped(max, slot));
  }

  lemma SlotOverflows(max: int, slot: seq<Call>, s: State)
    requires Inv(max, slot, s) && s.status.Running? && |s.queue| >= max >= 1
    ensures Overflowed(max, slot, AfterSlot(max, AfterDrop(s, Excess(max, s.queue)), slot))
  {
    var dropped := AfterDrop(s, Excess(max, s.queue));
    DropOverflows(max, slot, s, dropped);
    SlotCount(max, dropped, slot);
    SlotKeepsBooks(max, dropped, slot);
  }

  lemma StoreAfterOverflow(max: int, slot: seq<Call>, s: State, task: Task)
    requires Overflowed(max, slot, s)
    ensures Inv(max, slot, if s.status.Running? then AfterStore(s, task) else s)
  {
    if s.status.Running? {
      StoreKeepsBooks(s, task);
    }
  }

  lemma FullEnqueueKeeps(max: int, slot: seq<Call>, s: State, task: Task)
    requires Inv(max, slot, s) && s.status.Running? && |s.queue| >= max >= 1
    ensures Inv(max, slot, AfterEnqueue(max, slot, s, task))
  {
    SlotOverflows(max, slot, s);
    StoreAfterOverflow(max, slot, AfterSlot(max, AfterDrop(s, Excess(max, s.queue)), slot), task);
  }

  lemma ClearKeeps(max: int, slot: seq<Call>, s: State)
    requires Inv(max, slot, s)
    ensures Inv(max, slot, AfterClear(s))
  {
    ClearKeepsBooks(s);
  }

  lemma CallKeeps(max: int, slot: seq<Call>, s: State, c: Call)
    requires Inv(max, slot, s) && s.status.Running?
    ensures Inv(max, slot, AfterCall(max, slot, s, c))
  {
    match c
    case Enqueue(task) =>
      if max < 1 {
        EmptyEnqueueKeeps(max, slot, s, task);
      } else if |s.queue| < max {
        RoomEnqueueKeeps(max, slot, s, task);
      } else {
        FullEnqueueKeeps(max, slot, s, task);
      }
    case Clear => ClearKeeps(max, slot, s);
    case Start =>
    case Stop =>
  }

  lemma {:induction false} CallsKeep(max: int, slot: seq<Call>, s: State, calls: seq<Call>)
    requires Inv(max, slot, s)
    ensures Inv(max, slot, AfterCalls(max, slot, s, calls))
  {
    if calls == [] {
    } else {
      var n := |calls| - 1;
      CallsKeep(max, slot, s, calls[..n]);
      var before := AfterCalls(max, slot, s, calls[..n]);
      if before.status.Running? {
        CallKeeps(max, slot, before, calls[n]);
      }
    }
  }

  lemma TakeKeeps(max: int, slot: seq<Call>, s: State)
    requires Inv(max, slot, s) && s.queue != []
    ensures Inv(max, slot, s.(queue := s.queue[1..], removals := s.removals + [Executed(s.queue[0])]))
  {
    var task := s.queue[0];
    DropCountSnoc(s.removals, Executed(task));
    assert Tasks(s.removals + [Executed(task)]) == Tasks(s.removals) + [task];
    assert s.queue == [task] + s.queue[1..];
  }

  lemma ConsumeKeeps(max: int, slot: seq<Call>, s: State)
    requires Inv(max, slot, s)
    ensures Inv(max, slot, AfterConsume(max, slot, s))
  {
    if s.queue != [] {
      var task := s.queue[0];
      TakeKeeps(max, slot, s);
      CallsKeep(max, slot, s.(queue := s.queue[1..], removals := s.removals + [Executed(task)]), task.calls);
    }
  }

  lemma {:induction false} RunKeeps(max: int, slot: seq<Call>, run: seq<Event>)
    ensures Inv(max, slot, AfterRun(max, slot, run))
  {
    if run == [] {
    } else {
      var n := |run| - 1;
      RunKeeps(max, slot, run[..n]);
      var s := AfterRun(max, slot, run[..n]);
      if s.status.Running? {
        match run[n]
        case Outside(c) => CallKeeps(max, slot, s, c);
        case Tick => ConsumeKeeps(max, slot, s);
      }
    }
  }

  /** Over every run, whatever tasks and slot call, nothing is lost, doubled or
      reordered, and every drop is signalled. */
  lemma History(max: int, slot: seq<Call>, run: seq<Event>)
    ensures var s := AfterRun(max, slot, run);
            && s.entered == Tasks(s.removals) + s.queue
            && Sum(s.signals) == DropCount(s.removals)
  {
    RunKeeps(max, slot, run);
  }

  /** The queue grows beyond its maximum if and only if it ever overflows and the slot
      fills it up again; and then by one task only. */
  lemma BoundKept(max: int, slot: seq<Call>, run: seq<Event>)
    requires max >= 1
    ensures var s := AfterRun(max, slot, run);
            && |s.queue| <= s.peak <= max + 1
            && (s.peak == max + 1 <==> s.signals != [] && FillsUp(max, slot))
  {
    RunKeeps(max, slot, run);
  }

  /** Unless the slot fills up the queue, every overflow drops exactly one task. */
  lemma DropsOneByOne(max: int, slot: seq<Call>, run: seq<Event>)
    ensures var s := AfterRun(max, slot, run);
            forall i :: 0 <= i < |s.signals| ==> 1 <= s.signals[i] <= (if FillsUp(max, slot) then 2 else 1)
  {
    RunKeeps(max, slot, run);
  }

  /** A run gets stuck in the slot if and only if there is an overflow at all and some
      call of the slot overflows the queue again. */
  lemma StuckIf(max: int, slot: seq<Call>, run: seq<Event>)
    ensures var s := AfterRun(max, slot, run);
            s.status.NeverReturns? <==> s.signals != [] && Loops(max, slot)
  {
    RunKeeps(max, slot, run);
  }

  predicate Enqueues(run: seq<Event>) {
    exists i :: 0 <= i < |run| && run[i].Outside? && run[i].call.Enqueue?
  }

  /** The drop loop asks an empty queue for its front if and only if the maximum is
      below one and anything is ever enqueued. */
  lemma {:induction false} BrokenIf(max: int, slot: seq<Call>, run: seq<Event>)
    ensures AfterRun(max, slot, run).status.AskedEmpty? <==> max < 1 && Enqueues(run)
  {
    RunKeeps(max, slot, run);
    if run == [] {
    } else {
      var n := |run| - 1;
      BrokenIf(max, slot, run[..n]);
      RunKeeps(max, slot, run[..n]);
      if Enqueues(run) && !(run[n].Outside? && run[n].call.Enqueue?) {
        var i :| 0 <= i < |run| && run[i].Outside? && run[i].call.Enqueue?;
        assert run[..n][i] == run[i];
      }
    }
  }

  lemma SlotOfOne(s: State, c: Task)
    requires s.status.Running? && s.queue == []
    ensures AfterSlot(1, s, [Enqueue(c)]) == AfterStore(s, c)
  {
    var slot := [Enqueue(c)];
    assert slot[..0] == [];
    assert AfterSlot(1, s, slot) == AfterSlotCall(1, s, slot[0]);
  }

  lemma FirstEnqueue(slot: seq<Call>, a: Task)
    ensures AfterRun(1, slot, [Outside(Enqueue(a))]) == AfterStore(INITIAL, a)
  {
    var run := [Outside(Enqueue(a))];
    assert run[..0] == [];
    assert AfterRun(1, slot, run) == AfterEvent(1, slot, INITIAL, run[0]);
  }

  /** A maximum of one, and a slot that stores a task of its own: two tasks. */
  lemma OneTooMany(a: Task, b: Task, c: Task)
    ensures AfterRun(1, [Enqueue(c)], [Outside(Enqueue(a)), Outside(Enqueue(b))]).queue == [c, b]
  {
    var slot, run := [Enqueue(c)], [Outside(Enqueue(a)), Outside(Enqueue(b))];
    var s := AfterStore(INITIAL, a);
    FirstEnqueue(slot, a);
    assert run[..1] == [Outside(Enqueue(a))];
    assert AfterRun(1, slot, run) == AfterEnqueue(1, slot, s, b);
    SlotOfOne(AfterDrop(s, 1), c);
    assert AfterStore(AfterDrop(s, 1), c).queue == [c];
  }

  // --------------------------------------------------------- execution order

  function ExecutedTasks(removals: seq<Removal>): seq<Task> {
    if removals == [] then []
    else
      var last := removals[|removals| - 1];
      ExecutedTasks(removals[..|removals| - 1]) + (if last.Executed? then [last.task] else [])
  }

  /** `a` is `b` with some elements left out. */
  predicate Subsequence(a: seq<Task>, b: seq<Task>)
    decreases |b|
  {
    a == [] ||
    (b != [] &&
     (|| Subsequence(a, b[..|b| - 1])
      || (a[|a| - 1] == b[|b| - 1] && Subsequence(a[..|a| - 1], b[..|b| - 1]))))
  }

  lemma {:induction false} SubsequenceExtends(a: seq<Task>, b: seq<Task>, c: seq<Task>)
    requires Subsequence(a, b)
    ensures Subsequence(a, b + c)
    decreases |c|
  {
    if c == [] {
      assert b + c == b;
    } else {
      SubsequenceExtends(a, b, c[..|c| - 1]);
      assert (b + c)[..|b + c| - 1] == b + c[..|c| - 1];
    }
  }

  lemma {:induction false} ExecutedAmongRemoved(removals: seq<Removal>)
    ensures Subsequence(ExecutedTasks(removals), Tasks(removals))
  {
    if removals == [] {
    } else {
      var n := |removals| - 1;
      ExecutedAmongRemoved(removals[..n]);
      var a, b := ExecutedTasks(removals), Tasks(removals);
      assert b[..n] == Tasks(removals[..n]);
      if removals[n].Executed? {
        assert a == ExecutedTasks(removals[..n]) + [b[n]];
        assert a[..|a| - 1] == ExecutedTasks(removals[..n]);
      } else {
        assert a == ExecutedTasks(removals[..n]);
      }
    }
  }

  /** Tasks are executed in the order in which they were enqueued, each enqueued
      task at most once. */
  lemma ExecutionOrder(max: int, slot: seq<Call>, run: seq<Event>)
    ensures var s := AfterRun(max, slot, run); Subsequence(ExecutedTasks(s.removals), s.entered)
  {
    var s := AfterRun(max, slot, run);
    History(max, slot, run);
    ExecutedAmongRemoved(s.removals);
    SubsequenceExtends(ExecutedTasks(s.removals), Tasks(s.removals), s.queue);
  }
}
