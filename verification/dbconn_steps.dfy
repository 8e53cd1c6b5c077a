/** What single calls of the pool do in the protocol of its threads, and that the locked
    steps of the protocol are the methods of the pool. */
module ConnSteps {
  import opened ConnPool
  import opened ConnLaws
  import opened ConnProtocol
  import opened Wrappers

  lemma RunOne(f: Factory, s: State, a: Action)
    requires Enabled(f, s, a)
    ensures Exec(f, s, [a]) == Some(Apply(f, s, a))
  {
    assert [a][..0] == [];
    assert Exec(f, s, []) == Some(s);
  }

  lemma RunTwo(f: Factory, s: State, a: Action, s1: State, b: Action)
    requires Enabled(f, s, a) && s1 == Apply(f, s, a) && Enabled(f, s1, b)
    ensures Exec(f, s, [a, b]) == Some(Apply(f, s1, b))
  {
    RunOne(f, s, a);
    ExecNext(f, s, [a], b);
    assert [a] + [b] == [a, b];
  }

  lemma RunThree(f: Factory, s: State, a: Action, s1: State, b: Action, s2: State, c: Action)
    requires Enabled(f, s, a) && s1 == Apply(f, s, a) && Enabled(f, s1, b) && s2 == Apply(f, s1, b)
    requires Enabled(f, s2, c)
    ensures Exec(f, s, [a, b, c]) == Some(Apply(f, s2, c))
  {
    RunTwo(f, s, a, s1, b);
    ExecNext(f, s, [a, b], c);
    assert [a, b] + [c] == [a, b, c];
  }

  /** `t` does nothing and the first connection in the queue is open. */
  predicate CanServe(s: State, t: nat) {
    s.PhaseOf(t).Idle? && s.idle != [] && s.idle[0].open
  }

  lemma FirstServed(f: Factory, s: State, t: nat)
    requires s.PhaseOf(t).Ready? && s.idle != [] && s.idle[0].open
    ensures Enabled(f, s, Lend(t, 0))
    ensures var c, u := s.idle[0], Apply(f, s, Lend(t, 0));
            && u.PhaseOf(t) == (if s.PhaseOf(t).exec then Checking(c) else Holding(c))
            && u.idle == s.idle[1..] && u.made == s.made && u.lost == s.lost
            && u.phases == s.phases[t := u.PhaseOf(t)]
  {
    assert Front(s.idle, f, s.made, 0) == s.idle[0];
    assert Rotated(s.idle, f, s.made, 0, 1) == s.idle[1..];
  }

  /** A state that differs from `s` by the first connection of the queue having been used
      and put at its back. */
  ghost predicate UsedAndReturned(s: State, u: State, t: nat)
    requires s.idle != []
  {
    && u.idle == s.idle[1..] + [s.idle[0]] && u.made == s.made && u.lost == s.lost
    && (forall i :: u.PhaseOf(i) == s.PhaseOf(i))
    && u.PhaseOf(t).Idle?
  }

  /** A client takes a connection and gives it back. */
  lemma ClientRoundTrip(f: Factory, s: State, t: nat, timed: bool)
    requires CanServe(s, t)
    ensures var end := Exec(f, s, [Begin(t, timed), Lend(t, 0), Return(t)]);
            end.Some? && UsedAndReturned(s, end.value, t)
  {
    var s1 := Apply(f, s, Begin(t, timed));
    FirstServed(f, s1, t);
    RunThree(f, s, Begin(t, timed), s1, Lend(t, 0), Apply(f, s1, Lend(t, 0)), Return(t));
  }

  /** exec runs its query in place and gives the connection back. */
  lemma ExecInPlace(f: Factory, s: State, t: nat)
    requires CanServe(s, t)
    ensures var end := Exec(f, s, [BeginExec(t), Lend(t, 0), Check(t), Done(t)]);
            end.Some? && UsedAndReturned(s, end.value, t)
  {
    var s1 := Apply(f, s, BeginExec(t));
    FirstServed(f, s1, t);
    var s2 := Apply(f, s1, Lend(t, 0));
    RunThree(f, s, BeginExec(t), s1, Lend(t, 0), s2, Check(t));
    ExecNext(f, s, [BeginExec(t), Lend(t, 0), Check(t)], Done(t));
    assert [BeginExec(t), Lend(t, 0), Check(t)] + [Done(t)] == [BeginExec(t), Lend(t, 0), Check(t), Done(t)];
  }

  /** exec hands the connection to a task, which gives it back; exec itself is through
      before that. */
  lemma ExecAsTask(f: Factory, s: State, t: nat, task: nat)
    requires CanServe(s, t) && task != t && s.PhaseOf(task).Idle?
    ensures var half := Exec(f, s, [BeginExec(t), Lend(t, 0), CheckQueued(t, task)]);
            half.Some? && half.value.PhaseOf(t).Idle? && half.value.PhaseOf(task) == Running(s.idle[0])
    ensures var end := Exec(f, s, [BeginExec(t), Lend(t, 0), CheckQueued(t, task), Done(task)]);
            end.Some? && UsedAndReturned(s, end.value, t)
  {
    var s1 := Apply(f, s, BeginExec(t));
    FirstServed(f, s1, t);
    var s2 := Apply(f, s1, Lend(t, 0));
    var run := [BeginExec(t), Lend(t, 0), CheckQueued(t, task)];
    RunThree(f, s, BeginExec(t), s1, Lend(t, 0), s2, CheckQueued(t, task));
    ExecNext(f, s, run, Done(task));
    assert run + [Done(task)] == [BeginExec(t), Lend(t, 0), CheckQueued(t, task), Done(task)];
  }

  /** A queued connection that goes stale is passed over and replaced by a product. */
  lemma StaleIsReplaced(f: Factory, s: State, t: nat)
    requires s.PhaseOf(t).Idle? && |s.idle| >= 2 && s.idle[1].open
    ensures var end := Exec(f, s, [DriftIdle(0, false), Begin(t, false), Lend(t, 1)]);
            && end.Some? && end.value.PhaseOf(t) == Holding(s.idle[1])
            && end.value.idle == s.idle[2..] + [f(s.made)] && end.value.made == s.made + 1
  {
    var s1 := Apply(f, s, DriftIdle(0, false));
    var u := Apply(f, s1, Begin(t, false));
    assert u.idle == [s.idle[0].(open := false)] + s.idle[1..];
    assert Front(u.idle, f, u.made, 0) == u.idle[0] && Front(u.idle, f, u.made, 1) == s.idle[1];
    assert AllStale(u.idle, f, u.made, 1) by {
      assert Stale(u.idle, f, u.made, 0);
    }
    assert Rotated(u.idle, f, u.made, 1, 1) == s.idle[2..] + [f(s.made)];
    RunThree(f, s, DriftIdle(0, false), s1, Begin(t, false), u, Lend(t, 1));
  }

  /** With an empty queue a timed acquire waits and an untimed one gets nothing. */
  lemma EmptyPool(f: Factory, s: State, t: nat)
    requires s.PhaseOf(t).Idle? && s.idle == []
    ensures var waiting := Apply(f, s, Begin(t, true));
            && waiting.PhaseOf(t).Waiting? && !Enabled(f, waiting, Wake(t))
            && forall k :: !Enabled(f, waiting, Lend(t, k))
    ensures var end := Exec(f, s, [Begin(t, true), TimeOut(t)]);
            && end.Some? && end.value.PhaseOf(t).Idle? && end.value.idle == [] && end.value.log == s.log
    ensures var end := Exec(f, s, [Begin(t, false), LendNone(t)]);
            && end.Some? && end.value.PhaseOf(t).Idle? && end.value.idle == [] && end.value.log == s.log
  {
    RunTwo(f, s, Begin(t, true), Apply(f, s, Begin(t, true)), TimeOut(t));
    RunTwo(f, s, Begin(t, false), Apply(f, s, Begin(t, false)), LendNone(t));
  }

  /** What is given back while another thread waits goes to that thread. */
  lemma WaiterServed(f: Factory, s: State, t: nat, u: nat, c: Conn)
    requires s.PhaseOf(t).Idle? && s.idle == [] && u != t && s.PhaseOf(u) == Holding(c) && c.open
    ensures var end := Exec(f, s, [Begin(t, true), Return(u), Wake(t), Lend(t, 0)]);
            && end.Some? && end.value.PhaseOf(t) == Holding(c) && end.value.PhaseOf(u).Idle?
            && end.value.idle == [] && end.value.made == s.made
  {
    var waiting := Apply(f, s, Begin(t, true));
    var given := Apply(f, waiting, Return(u));
    var run := [Begin(t, true), Return(u), Wake(t)];
    assert given.idle == [c];
    FirstServed(f, Apply(f, given, Wake(t)), t);
    RunThree(f, s, Begin(t, true), waiting, Return(u), given, Wake(t));
    ExecNext(f, s, run, Lend(t, 0));
    assert run + [Lend(t, 0)] == [Begin(t, true), Return(u), Wake(t), Lend(t, 0)];
  }

  /** A thread comes to have a connection, or to run its query, only if that connection is
      open at that moment. */
  lemma HandedOutOpen(f: Factory, s: State, a: Action, t: nat)
    requires Enabled(f, s, a) && Apply(f, s, a).PhaseOf(t).Has()
    requires !s.PhaseOf(t).Has() || (Apply(f, s, a).PhaseOf(t).Running? && !s.PhaseOf(t).Running?)
    ensures Apply(f, s, a).PhaseOf(t).conn.open
  {
  }

  /** What a thread can do with the queue is determined by the queue: it wakes up if there
      is something and times out if there is not; with the lock it gets nothing if there
      is nothing, and else there is at most one connection it can be lent. */
  lemma QueueDecides(f: Factory, s: State, t: nat)
    ensures s.PhaseOf(t).Waiting? ==> Enabled(f, s, Wake(t)) == (s.idle != [])
    ensures s.PhaseOf(t).Waiting? ==> Enabled(f, s, TimeOut(t)) == (s.idle == [])
    ensures s.PhaseOf(t).Ready? ==> Enabled(f, s, LendNone(t)) == (s.idle == [])
    ensures forall j: nat, k: nat :: Enabled(f, s, Lend(t, j)) && Enabled(f, s, Lend(t, k)) ==> j == k
  {
    forall j: nat, k: nat | Enabled(f, s, Lend(t, j)) && Enabled(f, s, Lend(t, k))
      ensures j == k
    {
      assert j < k ==> Stale(s.idle, f, s.made, j);
      assert k < j ==> Stale(s.idle, f, s.made, k);
    }
  }

  // ------------------------------------- the locked steps are the methods' bodies

  /** Whatever `DBConnPool.Acquire` can end with, a thread that is about to take the lock
      can be lent in one step. */
  lemma LendMatchesAcquire(f: Factory, s: State, t: nat, gone: seq<nat>, k: nat,
                           conn: Conn, conns: seq<Conn>, removed: seq<nat>)
    requires s.PhaseOf(t).Ready? && Taken(s.idle, f, s.made, gone, k, conn, conns, removed)
    ensures Enabled(f, s, Lend(t, k))
    ensures var u := Apply(f, s, Lend(t, k));
            && u.idle == conns && u.made == s.made + k
            && u.PhaseOf(t).Has() && u.PhaseOf(t).conn == conn
  {
  }

  /** And whatever `DBConnPool.SetConnNum` can end with is the outcome of a resize. */
  lemma ResizeMatchesSetConnNum(f: Factory, s: State, num: nat, conns: seq<Conn>, made: nat)
    requires Fills(f, s.made, num - |s.idle|, made)
    requires |s.idle| + |Products(f, s.made, made)| >= num
    requires conns == (s.idle + Products(f, s.made, made))[|s.idle| + |Products(f, s.made, made)| - num..]
    ensures Enabled(f, s, Resize(num, made))
    ensures var u := Apply(f, s, Resize(num, made));
            u.idle == conns && u.made == made && u.phases == s.phases && u.lost == s.lost
  {
  }
}
