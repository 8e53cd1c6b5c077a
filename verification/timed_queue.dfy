/** `TimedQueue`: a bounded queue of tasks that a timer works off one by one. When
    it is full the oldest task makes room, and a signal says so before the new task is
    stored. Tasks and the slot of that signal may call the queue themselves. */
module TimedQueues {
  import opened Wrappers

  /** A task and, in order, the calls it makes on its own queue. */
  datatype Task = Task(id: nat, calls: seq<Call>)

  datatype Call = Enqueue(task: Task) | Clear | Start | Stop

  /** How a task left the queue. */
  datatype Removal = Executed(task: Task) | Dropped(task: Task) | Cleared(task: Task)

  /** Once an empty queue was asked for its front, or the slot calls itself for ever,
      nothing more happens. */
  datatype Status = Running | AskedEmpty | NeverReturns

  datatype State = State(
    queue: seq<Task>,
    active: bool,            // is the timer running?
    entered: seq<Task>,      // every task ever stored
    removals: seq<Removal>,  // every task that left, in order
    signals: seq<int>,       // arguments of signalQueueOverflow
    peak: nat,               // the greatest length the queue has had
    status: Status)

  const INITIAL: State := State([], false, [], [], [], 0, Running)

  // ---------------------------------------------------------------- operations

  function DropAll(tasks: seq<Task>): (r: seq<Removal>)
    ensures |r| == |tasks| && forall i :: 0 <= i < |r| ==> r[i] == Dropped(tasks[i])
  {
    seq(|tasks|, i requires 0 <= i < |tasks| => Dropped(tasks[i]))
  }

  function ClearAll(tasks: seq<Task>): (r: seq<Removal>)
    ensures |r| == |tasks| && forall i :: 0 <= i < |r| ==> r[i] == Cleared(tasks[i])
  {
    seq(|tasks|, i requires 0 <= i < |tasks| => Cleared(tasks[i]))
  }

  function Max(a: nat, b: nat): nat {
    if a < b then b else a
  }

  /** How many tasks have to go before one more fits. */
  function Excess(max: int, queue: seq<Task>): nat
    requires max >= 1
  {
    if |queue| < max then 0 else |queue| - max + 1
  }

  function AfterStore(s: State, task: Task): State {
    s.(queue := s.queue + [task], entered := s.entered + [task], peak := Max(s.peak, |s.queue| + 1))
  }

  /** Dropping `n` tasks, and the signal. */
  function AfterDrop(s: State, n: nat): State
    requires n <= |s.queue|
  {
    s.(queue := s.queue[n..], removals := s.removals + DropAll(s.queue[..n]), signals := s.signals + [n])
  }

  function AfterClear(s: State): State {
    s.(queue := [], active := false, removals := s.removals + ClearAll(s.queue))
  }

  /** A call made by the slot of the signal. If it overflows again, the slot is called
      again with as many tasks as before, and so on: see `NestedIs`. */
  function AfterSlotCall(max: int, s: State, c: Call): State {
    match c
    case Enqueue(task) => if |s.queue| < max then AfterStore(s, task) else s.(status := NeverReturns)
    case Clear => AfterClear(s)
    case Start => s.(active := true)
    case Stop => s.(active := false)
  }

  function AfterSlot(max: int, s: State, calls: seq<Call>): State {
    if calls == [] then s
    else
      var before := AfterSlot(max, s, calls[..|calls| - 1]);
      if before.status.Running? then AfterSlotCall(max, before, calls[|calls| - 1]) else before
  }

  /** Tasks are dropped until one more fits, the signal is emitted, and after its slot
      the new task is stored. If `max` is below one no number of drops makes room, and
      the queue is asked for one task too many. */
  function AfterEnqueue(max: int, slot: seq<Call>, s: State, task: Task): State {
    if max < 1 then
      s.(queue := [], removals := s.removals + DropAll(s.queue), status := AskedEmpty)
    else if |s.queue| < max then
      AfterStore(s, task)
    else
      var after := AfterSlot(max, AfterDrop(s, Excess(max, s.queue)), slot);
      if after.status.Running? then AfterStore(after, task) else after
  }

  function AfterCall(max: int, slot: seq<Call>, s: State, c: Call): State {
    match c
    case Enqueue(task) => AfterEnqueue(max, slot, s, task)
    case Clear => AfterClear(s)
    case Start => s.(active := true)
    case Stop => s.(active := false)
  }

  function AfterCalls(max: int, slot: seq<Call>, s: State, calls: seq<Call>): State {
    if calls == [] then s
    else
      var before := AfterCalls(max, slot, s, calls[..|calls| - 1]);
      if before.status.Running? then AfterCall(max, slot, before, calls[|calls| - 1]) else before
  }

  /** The timer fires: the oldest task leaves the queue and then runs. */
  function AfterConsume(max: int, slot: seq<Call>, s: State): State {
    if s.queue == [] then s
    else
      var task := s.queue[0];
      AfterCalls(max, slot, s.(queue := s.queue[1..], removals := s.removals + [Executed(task)]), task.calls)
  }

  class TimedQueue {
    const maxQueueSize: int
    const slot: seq<Call>  // what is connected to signalQueueOverflow
    var queue: seq<Task>
    var active: bool
    var entered: seq<Task>
    var removals: seq<Removal>
    var signals: seq<int>
    var peak: nat
    var status: Status

    function Now(): State
      reads this
    {
      State(queue, active, entered, removals, signals, peak, status)
    }

    constructor (maxQueueSize: int, slot: seq<Call>)
      ensures this.maxQueueSize == maxQueueSize && this.slot == slot && Now() == INITIAL
    {
      this.maxQueueSize := maxQueueSize;
      this.slot := slot;
      queue, active, entered, removals, signals, peak, status := [], false, [], [], [], 0, Running;
    }

    method Store(task: Task)
      modifies this
      ensures Now() == AfterStore(old(Now()), task)
    {
      queue := queue + [task];
      entered := entered + [task];
      peak := Max(peak, |queue|);
    }

    method Enqueue(task: Task)
      requires status.Running?
      modifies this
      ensures Now() == AfterEnqueue(maxQueueSize, slot, old(Now()), task)
    {
      var dropped := 0;
      ghost var before, gone := queue, removals;
      while |queue| >= maxQueueSize
        invariant 0 <= dropped <= |before| && (maxQueueSize >= 1 ==> dropped <= Excess(maxQueueSize, before))
        invariant queue == before[dropped..] && removals == gone + DropAll(before[..dropped])
        invariant status.Running? && active == old(active) && entered == old(entered)
        invariant signals == old(signals) && peak == old(peak)
        decreases |queue|
      {
        if queue == [] {
          assert before[..dropped] == before;
          status := AskedEmpty;
          return;
        }
        assert DropAll(before[..dropped + 1]) == DropAll(before[..dropped]) + [Dropped(queue[0])];
        removals := removals + [Dropped(queue[0])];
        queue := queue[1..];
        dropped := dropped + 1;
      }
      if dropped > 0 {
        signals := signals + [dropped];
        EmitOverflow();
        if !status.Running? {
          return;
        }
      }
      Store(task);
    }

    /** The slot runs while the signal is being emitted. */
    method EmitOverflow()
      requires status.Running?
      modifies this
      ensures Now() == AfterSlot(maxQueueSize, old(Now()), slot)
    {
      for i := 0 to |slot|
        invariant status.Running? && Now() == AfterSlot(maxQueueSize, old(Now()), slot[..i])
      {
        assert slot[..i + 1][..i] == slot[..i];
        match slot[i] {
          case Enqueue(t) =>
            if |queue| >= maxQueueSize {
              status := NeverReturns;
            } else {
              Store(t);
            }
          case Clear => Clear();
          case Start => Start();
          case Stop => Stop();
        }
        if !status.Running? {
          SlotStays(maxQueueSize, old(Now()), slot, i + 1);
          return;
        }
      }
      assert slot[..|slot|] == slot;
    }

    method Clear()
      modifies this
      ensures Now() == AfterClear(old(Now()))
    {
      removals := removals + ClearAll(queue);
      queue := [];
      active := false;
    }

    method Start()
      modifies this
      ensures Now() == old(Now()).(active := true)
    {
      if !active {
        active := true;
      }
    }

    method Stop()
      modifies this
      ensures Now() == old(Now()).(active := false)
    {
      active := false;
    }

    /** What the task does when it is called. */
    method Run(task: Task)
      requires status.Running?
      modifies this
      ensures Now() == AfterCalls(maxQueueSize, slot, old(Now()), task.calls)
    {
      for i := 0 to |task.calls|
        invariant status.Running? && Now() == AfterCalls(maxQueueSize, slot, old(Now()), task.calls[..i])
      {
        assert task.calls[..i + 1][..i] == task.calls[..i];
        match task.calls[i] {
          case Enqueue(t) => Enqueue(t);
          case Clear => Clear();
          case Start => Start();
          case Stop => Stop();
        }
        if !status.Running? {
          CallsStay(maxQueueSize, slot, old(Now()), task.calls, i + 1);
          return;
        }
      }
      assert task.calls[..|task.calls|] == task.calls;
    }

    method Consume()
      requires status.Running?
      modifies this
      ensures Now() == AfterConsume(maxQueueSize, slot, old(Now()))
    {
      if queue == [] {
        return;
      }
      var task := queue[0];
      queue := queue[1..];
      removals := removals + [Executed(task)];
      Run(task);
    }
  }

  lemma {:induction false} CallsStay(max: int, slot: seq<Call>, s: State, calls: seq<Call>, n: nat)
    requires n <= |calls| && !AfterCalls(max, slot, s, calls[..n]).status.Running?
    ensures AfterCalls(max, slot, s, calls) == AfterCalls(max, slot, s, calls[..n])
  {
    if n == |calls| {
      assert calls[..n] == calls;
    } else {
      var before := calls[..|calls| - 1];
      assert before[..n] == calls[..n];
      CallsStay(max, slot, s, before, n);
    }
  }

  lemma {:induction false} SlotStays(max: int, s: State, calls: seq<Call>, n: nat)
    requires n <= |calls| && !AfterSlot(max, s, calls[..n]).status.Running?
    ensures AfterSlot(max, s, calls) == AfterSlot(max, s, calls[..n])
  {
    if n == |calls| {
      assert calls[..n] == calls;
    } else {
      var before := calls[..|calls| - 1];
      assert before[..n] == calls[..n];
      SlotStays(max, s, before, n);
    }
  }

  // ------------------------------------------------------------------- the slot

  /** How many tasks there are after some calls, from `n`, if none of them overflows. */
  function Held(n: nat, calls: seq<Call>): nat {
    if calls == [] then n
    else
      match calls[|calls| - 1]
      case Enqueue(_) => Held(n, calls[..|calls| - 1]) + 1
      case Clear => 0
      case Start => Held(n, calls[..|calls| - 1])
      case Stop => Held(n, calls[..|calls| - 1])
  }

  /** Some call of the slot overflows the queue that it finds, which has room for one. */
  predicate Loops(max: int, slot: seq<Call>) {
    max >= 1 && exists j :: 0 <= j <= |slot| && Held(max - 1, slot[..j]) > max
  }

  /** No call of the slot overflows, but at its end the queue is full. */
  predicate FillsUp(max: int, slot: seq<Call>) {
    max >= 1 && !Loops(max, slot) && Held(max - 1, slot) == max
  }

  lemma LoopsNext(max: int, calls: seq<Call>)
    requires max >= 1 && calls != []
    ensures Loops(max, calls) <==> Loops(max, calls[..|calls| - 1]) || Held(max - 1, calls) > max
  {
    var n := |calls| - 1;
    assert calls[..n + 1] == calls;
    assert forall j :: 0 <= j <= n ==> calls[..n][..j] == calls[..j];
  }

  /** The slot, counted: it returns unless it loops, and then it leaves as many tasks
      as its calls add up to. */
  lemma {:induction false} SlotCount(max: int, s: State, calls: seq<Call>)
    requires max >= 1 && s.status.Running? && |s.queue| == max - 1
    ensures var t := AfterSlot(max, s, calls);
            && (t.status.Running? ==> |t.queue| == Held(max - 1, calls) <= max)
            && t.status == if Loops(max, calls) then NeverReturns else Running
  {
    if calls == [] {
      assert forall j :: 0 <= j <= 0 ==> calls[..j] == [];
    } else {
      SlotCount(max, s, calls[..|calls| - 1]);
      LoopsNext(max, calls);
    }
  }

  /** `enqueue` with the calls of the slot inside it, given up as soon as more than
      `depth` emissions of the signal are inside one another. */
  function Nested(max: int, slot: seq<Call>, depth: nat, s: State, task: Task): Option<State>
    requires max >= 1
    decreases depth, 0
  {
    if |s.queue| < max then Some(AfterStore(s, task))
    else if depth == 0 then None
    else
      match NestedSlot(max, slot, depth - 1, AfterDrop(s, Excess(max, s.queue)), slot)
      case None => None
      case Some(after) => Some(AfterStore(after, task))
  }

  function NestedSlot(max: int, slot: seq<Call>, depth: nat, s: State, calls: seq<Call>): Option<State>
    requires max >= 1
    decreases depth, |calls| + 1
  {
    if calls == [] then Some(s)
    else
      match NestedSlot(max, slot, depth, s, calls[..|calls| - 1])
      case None => None
      case Some(before) =>
        match calls[|calls| - 1]
        case Enqueue(task) => Nested(max, slot, depth, before, task)
        case Clear => Some(AfterClear(before))
        case Start => Some(before.(active := true))
        case Stop => Some(before.(active := false))
  }

  lemma {:induction false} NestedSlotIs(max: int, slot: seq<Call>, depth: nat, s: State, n: nat)
    requires max >= 1 && s.status.Running? && |s.queue| == max - 1 && n <= |slot|
    ensures NestedSlot(max, slot, depth, s, slot[..n])
         == if Loops(max, slot[..n]) then None else Some(AfterSlot(max, s, slot[..n]))
    decreases depth, n
  {
    SlotCount(max, s, slot[..n]);
    if n == 0 {
    } else {
      assert slot[..n][..n - 1] == slot[..n - 1];
      NestedSlotIs(max, slot, depth, s, n - 1);
      LoopsNext(max, slot[..n]);
      SlotCount(max, s, slot[..n - 1]);
      var before := AfterSlot(max, s, slot[..n - 1]);
      if depth > 0 && !Loops(max, slot[..n - 1]) && slot[n - 1].Enqueue? && |before.queue| >= max {
        var again := AfterDrop(before, Excess(max, before.queue));
        NestedSlotIs(max, slot, depth - 1, again, |slot|);
        assert slot[..|slot|] == slot;
        LoopsLater(max, slot, n);
      }
    }
  }

  lemma LoopsLater(max: int, slot: seq<Call>, n: nat)
    requires n <= |slot| && Loops(max, slot[..n])
    ensures Loops(max, slot)
  {
    var j :| 0 <= j <= n && Held(max - 1, slot[..n][..j]) > max;
    assert slot[..n][..j] == slot[..j];
  }

  /** However deep one looks, an overflow with a slot that loops does not return; with
      any other slot no emission is inside another, and `AfterEnqueue` is the result. */
  lemma NestedIs(max: int, slot: seq<Call>, depth: nat, s: State, task: Task)
    requires max >= 1 && s.status.Running? && |s.queue| >= max
    ensures Loops(max, slot) ==> Nested(max, slot, depth, s, task) == None
    ensures Loops(max, slot) <==> AfterEnqueue(max, slot, s, task).status.NeverReturns?
    ensures !Loops(max, slot) && depth > 0 ==>
      Nested(max, slot, depth, s, task) == Some(AfterEnqueue(max, slot, s, task))
  {
    var dropped := AfterDrop(s, Excess(max, s.queue));
    SlotCount(max, dropped, slot);
    assert slot[..|slot|] == slot;
    if depth > 0 {
      NestedSlotIs(max, slot, depth - 1, dropped, |slot|);
    }
  }
}
