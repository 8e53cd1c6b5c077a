/** What the invariant of the pool's protocol means for clients, and what becomes of
    the connections. */
module ConnLaws {
  import opened ConnPool
  import opened ConnProtocol
  import opened FiniteSets
  import opened Wrappers

  /** In every run: no handle is queued twice, lent twice, or queued while lent. */
  lemma NeverShared(f: Factory, run: seq<Action>)
    requires FreshHandles(f) && Exec(f, Init(), run).Some?
    ensures Exclusive(Exec(f, Init(), run).value)
  {
    InitInv();
    RunKeepsInv(f, Init(), run);
  }

  /** In every run: each lending of a handle has been answered by exactly one
      giveback or drop, or the handle is still held; so once all threads and tasks
      are done, returns and drops match the lendings one for one. */
  lemma LendingsAnswered(f: Factory, run: seq<Action>, id: nat)
    requires FreshHandles(f) && Exec(f, Init(), run).Some?
    ensures var s := Exec(f, Init(), run).value;
            && s.log[Back(id)] + s.log[Dropped(id)] <= s.log[Lent(id)] <= s.log[Back(id)] + s.log[Dropped(id)] + 1
            && (s.log[Lent(id)] == s.log[Back(id)] + s.log[Dropped(id)] <==> !Held(s, id))
  {
    InitInv();
    RunKeepsInv(f, Init(), run);
  }

  function Holders(s: State): set<nat> {
    set t | t in s.phases && s.phases[t].Has()
  }

  /** The connections in service: queued or lent. */
  function InService(s: State): nat {
    |s.idle| + |Holders(s)|
  }

  /** exec looks at what acquire gave it and finds it closed. */
  predicate StaleCheck(s: State, a: Action) {
    a.Check? && s.PhaseOf(a.t).Checking? && !s.PhaseOf(a.t).conn.open
  }

  /** The number of such steps in a run from `s`. */
  function StaleChecks(f: Factory, s: State, run: seq<Action>): nat {
    if run == [] then 0
    else StaleChecks(f, s, run[..|run| - 1]) + (if StaleCheckAt(f, s, run, |run| - 1) then 1 else 0)
  }

  predicate StaleCheckAt(f: Factory, s: State, run: seq<Action>, i: int) {
    0 <= i < |run| && Exec(f, s, run[..i]).Some? && StaleCheck(Exec(f, s, run[..i]).value, run[i])
  }

  lemma HoldersMove(s: State, s': State, t: nat)
    requires forall u :: u != t ==> s'.PhaseOf(u) == s.PhaseOf(u)
    ensures |Holders(s')| - (if s'.PhaseOf(t).Has() then 1 else 0)
         == |Holders(s)| - (if s.PhaseOf(t).Has() then 1 else 0)
  {
    assert forall u :: u in Holders(s) <==> s.PhaseOf(u).Has();
    assert forall u :: u in Holders(s') <==> s'.PhaseOf(u).Has();
    OneMoves(Holders(s), Holders(s'), t);
  }

  lemma GiveConserves(s: State, t: nat)
    requires s.PhaseOf(t).Has()
    ensures InService(Give(s, t)) == InService(s)
  {
    HoldersMove(s, Give(s, t), t);
  }

  lemma DropLosesOne(s: State, t: nat)
    requires s.PhaseOf(t).Has()
    ensures InService(Drop(s, t)) == InService(s) - 1
  {
    HoldersMove(s, Drop(s, t), t);
  }

  lemma LendConserves(f: Factory, s: State, t: nat, k: nat)
    requires s.PhaseOf(t).Ready? && s.idle != []
    ensures InService(LendTo(f, s, t, k)) == InService(s)
  {
    HoldersMove(s, LendTo(f, s, t, k), t);
  }

  lemma PhaseConserves(s: State, t: nat, p: Phase)
    requires p.Has() == s.PhaseOf(t).Has()
    ensures InService(s.(phases := s.phases[t := p])) == InService(s)
  {
    HoldersMove(s, s.(phases := s.phases[t := p]), t);
  }

  lemma HandOverConserves(s: State, t: nat, task: nat, p: Phase)
    requires s.PhaseOf(t).Has() && task != t && !s.PhaseOf(task).Has() && p.Has()
    ensures InService(s.(phases := s.phases[t := Idle][task := p])) == InService(s)
  {
    var m := s.(phases := s.phases[t := Idle]);
    HoldersMove(s, m, t);
    HoldersMove(m, m.(phases := m.phases[task := p]), task);
  }

  lemma ResizeConserves(f: Factory, s: State, num: nat, to: nat)
    requires Fills(f, s.made, num - |s.idle|, to)
    ensures |Resized(f, s, num, to).idle| == num
    ensures InService(Resized(f, s, num, to)) == InService(s) + num - |s.idle|
  {
  }

  /** A step changes the number of connections in service in two ways only:
      setConnNum makes the queue as long as it was told to, and a stale check loses
      one connection. */
  lemma StepConserves(f: Factory, s: State, a: Action)
    requires Enabled(f, s, a)
    ensures a.Resize? ==> |Apply(f, s, a).idle| == a.num && InService(Apply(f, s, a)) == InService(s) + a.num - |s.idle|
    ensures !a.Resize? ==> InService(Apply(f, s, a)) == InService(s) - (if StaleCheck(s, a) then 1 else 0)
    ensures |Apply(f, s, a).lost| == |s.lost| + (if StaleCheck(s, a) then 1 else 0)
  {
    match a
    case Lend(t, k) => LendConserves(f, s, t, k);
    case Done(t) => GiveConserves(s, t);
    case Return(t) => GiveConserves(s, t);
    case CheckQueued(t, task) => HandOverConserves(s, t, task, Running(s.PhaseOf(t).conn));
    case Resize(num, to) => ResizeConserves(f, s, num, to);
    case Check(t) =>
      if s.PhaseOf(t).conn.open {
        PhaseConserves(s, t, Running(s.PhaseOf(t).conn));
      } else {
        DropLosesOne(s, t);
      }
    case DriftIdle(_, _) => assert Holders(Apply(f, s, a)) == Holders(s);
    case DriftHeld(t, open) => PhaseConserves(s, t, WithOpen(s.PhaseOf(t), open));
    case Begin(t, timed) => PhaseConserves(s, t, if timed && s.idle == [] then Waiting else Ready(false));
    case BeginExec(t) => PhaseConserves(s, t, Ready(true));
    case Wake(t) => PhaseConserves(s, t, Ready(false));
    case TimeOut(t) => PhaseConserves(s, t, Idle);
    case LendNone(t) => PhaseConserves(s, t, Idle);
  }

  /** Every run loses exactly as many connections as it has stale checks. */
  lemma {:induction false} LostIsCounted(f: Factory, s: State, run: seq<Action>)
    requires Exec(f, s, run).Some?
    ensures |Exec(f, s, run).value.lost| == |s.lost| + StaleChecks(f, s, run)
  {
    if run == [] {
    } else {
      var n := |run| - 1;
      LostIsCounted(f, s, run[..n]);
      StepConserves(f, Exec(f, s, run[..n]).value, run[n]);
    }
  }

  lemma {:induction false} CountIsZero(f: Factory, s: State, run: seq<Action>)
    ensures StaleChecks(f, s, run) == 0 <==> forall i :: 0 <= i < |run| ==> !StaleCheckAt(f, s, run, i)
  {
    if run == [] {
    } else {
      var n := |run| - 1;
      CountIsZero(f, s, run[..n]);
      forall i | 0 <= i < n
        ensures StaleCheckAt(f, s, run, i) == StaleCheckAt(f, s, run[..n], i)
      {
        assert run[..n][..i] == run[..i];
      }
    }
  }

  /** From the start on nothing is lost if and only if no step is a stale check,
      whatever else opens or goes stale, and whenever. */
  lemma NothingLost(f: Factory, run: seq<Action>)
    requires Exec(f, Init(), run).Some?
    ensures Exec(f, Init(), run).value.lost == [] <==>
      forall i :: 0 <= i < |run| ==> !StaleCheckAt(f, Init(), run, i)
  {
    LostIsCounted(f, Init(), run);
    CountIsZero(f, Init(), run);
  }

  /** No lent connection goes stale. */
  predicate Steady(run: seq<Action>) {
    forall i :: 0 <= i < |run| ==> !(run[i].DriftHeld? && !run[i].open)
  }

  predicate CheckingOpen(s: State) {
    forall t :: t in s.phases && s.phases[t].Checking? ==> s.phases[t].conn.open
  }

  lemma StepKeepsOpen(f: Factory, s: State, a: Action)
    requires CheckingOpen(s) && Enabled(f, s, a) && !(a.DriftHeld? && !a.open)
    ensures CheckingOpen(Apply(f, s, a)) && Apply(f, s, a).lost == s.lost
  {
  }

  /** In particular nothing is lost while lent connections stay open. */
  lemma {:induction false} SteadyNeverLost(f: Factory, run: seq<Action>)
    requires Exec(f, Init(), run).Some? && Steady(run)
    ensures CheckingOpen(Exec(f, Init(), run).value) && Exec(f, Init(), run).value.lost == []
  {
    if run == [] {
    } else {
      var n := |run| - 1;
      SteadyNeverLost(f, run[..n]);
      StepKeepsOpen(f, Exec(f, Init(), run[..n]).value, run[n]);
    }
  }

  /** Between two calls of setConnNum the number of connections in service goes down
      by one for each stale check, and so stays the same if and only if there is
      none; the unlocked test and wait of acquire play no part in it. */
  lemma {:induction false} RunConserves(f: Factory, s: State, run: seq<Action>)
    requires Exec(f, s, run).Some? && forall i :: 0 <= i < |run| ==> !run[i].Resize?
    ensures InService(Exec(f, s, run).value) == InService(s) - StaleChecks(f, s, run)
    ensures InService(Exec(f, s, run).value) == InService(s) <==>
      forall i :: 0 <= i < |run| ==> !StaleCheckAt(f, s, run, i)
  {
    CountIsZero(f, s, run);
    if run == [] {
    } else {
      var n := |run| - 1;
      RunConserves(f, s, run[..n]);
      StepConserves(f, Exec(f, s, run[..n]).value, run[n]);
    }
  }

  lemma ExecNext(f: Factory, s: State, run: seq<Action>, a: Action)
    requires Exec(f, s, run).Some? && Enabled(f, Exec(f, s, run).value, a)
    ensures Exec(f, s, run + [a]) == Some(Apply(f, Exec(f, s, run).value, a))
  {
  }

  lemma OneProduct(f: Factory)
    requires f(0).open
    ensures Exec(f, Init(), [Resize(1, 1)]) == Some(State([f(0).(open := true)], 1, map[], [], multiset{}))
  {
  }

  lemma LendTheOne(f: Factory, c: Conn)
    requires c.open
    ensures var s := State([c], 1, map[0 := Ready(true)], [], multiset{});
            && Enabled(f, s, Lend(0, 0))
            && LendTo(f, s, 0, 0) == State([], 1, map[0 := Checking(c)], [], multiset{Lent(c.id)})
  {
  }

  lemma LentByExec(f: Factory)
    requires f(0).open
    ensures Exec(f, Init(), [Resize(1, 1)] + [BeginExec(0)] + [Lend(0, 0)])
         == Some(State([], 1, map[0 := Checking(f(0).(open := true))], [], multiset{Lent(f(0).id)}))
  {
    var c := f(0).(open := true);
    OneProduct(f);
    ExecNext(f, Init(), [Resize(1, 1)], BeginExec(0));
    assert map[][0 := Ready(true)] == map[0 := Ready(true)];
    LendTheOne(f, c);
    ExecNext(f, Init(), [Resize(1, 1)] + [BeginExec(0)], Lend(0, 0));
  }

  /** It can happen: the connection goes stale right after acquire, and exec neither
      runs the query nor gives the connection back. */
  lemma StaleAfterAcquireIsLost(f: Factory)
    requires f(0).open
    ensures var run := [Resize(1, 1)] + [BeginExec(0)] + [Lend(0, 0)] + [DriftHeld(0, false)] + [Check(0)];
            var end := Exec(f, Init(), run);
            end.Some? && end.value.idle == [] && Holders(end.value) == {} && |end.value.lost| == 1
  {
    var run := [Resize(1, 1)] + [BeginExec(0)] + [Lend(0, 0)];
    LentByExec(f);
    ExecNext(f, Init(), run, DriftHeld(0, false));
    ExecNext(f, Init(), run + [DriftHeld(0, false)], Check(0));
    var end := Exec(f, Init(), run + [DriftHeld(0, false)] + [Check(0)]).value;
    assert end.phases.Keys == {0} && end.phases[0] == Idle;
  }
}
