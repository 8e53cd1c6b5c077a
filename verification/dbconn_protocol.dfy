/** `DBConnPool` under concurrency. The locked parts of its methods are atomic
    steps; the unlocked emptiness test and wait of `acquire`, the check in `exec`,
    queries and queued tasks happen in between, and connections may open or go
    stale at any time. */
module ConnProtocol {
  import opened ConnPool
  import opened Wrappers

  /** What a client thread or a queued task is doing. */
  datatype Phase =
    | Idle
    | Waiting               // in the timed wait of acquire, lock not held
    | Ready(exec: bool)     // about to take the lock, on behalf of exec or not
    | Holding(conn: Conn)   // a client has what acquire returned
    | Checking(conn: Conn)  // exec has what acquire returned, not yet checked
    | Running(conn: Conn)   // exec's query is running, in place or as a task
  {
    predicate Has() {
      Holding? || Checking? || Running?
    }
  }

  datatype Event = Lent(id: nat) | Back(id: nat) | Dropped(id: nat)

  datatype State = State(
    idle: seq<Conn>,           // m_conns
    made: nat,                 // factory products so far
    phases: map<nat, Phase>,
    lost: seq<Conn>,           // handles dropped without being given back
    log: multiset<Event>)
  {
    function PhaseOf(t: nat): Phase {
      if t in phases then phases[t] else Idle
    }
  }

  datatype Action =
    | Begin(t: nat, timed: bool)      // acquire: the unlocked test
    | BeginExec(t: nat)
    | Wake(t: nat)                    // the wait saw a non-empty queue
    | TimeOut(t: nat)                 // the wait did not
    | Lend(t: nat, k: nat)            // locked: the first open one, after k stale ones
    | LendNone(t: nat)                // locked: the queue is empty
    | Check(t: nat)                   // exec: isOpen, then run in place or give up
    | CheckQueued(t: nat, task: nat)  // exec: isOpen, then start a task
    | Done(t: nat)                    // the query is over: giveback
    | Return(t: nat)                  // a client calls giveback
    | Resize(num: nat, to: nat)       // locked: setConnNum, products up to `to`
    | DriftIdle(i: nat, open: bool)   // a queued connection opens or goes stale
    | DriftHeld(t: nat, open: bool)   // a lent one does

  function Init(): State {
    State([], 0, map[], [], multiset{})
  }

  predicate Enabled(f: Factory, s: State, a: Action) {
    match a
    case Begin(t, _) => s.PhaseOf(t).Idle?
    case BeginExec(t) => s.PhaseOf(t).Idle?
    case Wake(t) => s.PhaseOf(t).Waiting? && s.idle != []
    case TimeOut(t) => s.PhaseOf(t).Waiting? && s.idle == []
    case Lend(t, k) => s.PhaseOf(t).Ready? && s.idle != [] && FirstOpen(s.idle, f, s.made, k)
    case LendNone(t) => s.PhaseOf(t).Ready? && s.idle == []
    case Check(t) => s.PhaseOf(t).Checking?
    case CheckQueued(t, task) => s.PhaseOf(t).Checking? && s.PhaseOf(t).conn.open && task != t && s.PhaseOf(task).Idle?
    case Done(t) => s.PhaseOf(t).Running?
    case Return(t) => s.PhaseOf(t).Holding?
    case Resize(num, to) => Fills(f, s.made, num - |s.idle|, to)
    case DriftIdle(i, _) => i < |s.idle|
    case DriftHeld(t, _) => s.PhaseOf(t).Has()
  }

  function Give(s: State, t: nat): State
    requires s.PhaseOf(t).Has()
  {
    var c := s.PhaseOf(t).conn;
    s.(idle := s.idle + [c], phases := s.phases[t := Idle], log := s.log + multiset{Back(c.id)})
  }

  function LendTo(f: Factory, s: State, t: nat, k: nat): State
    requires s.PhaseOf(t).Ready? && s.idle != []
  {
    var c := Front(s.idle, f, s.made, k);
    s.(idle := Rotated(s.idle, f, s.made, k, 1), made := s.made + k,
       phases := s.phases[t := if s.PhaseOf(t).exec then Checking(c) else Holding(c)],
       log := s.log + multiset{Lent(c.id)})
  }

  function Drop(s: State, t: nat): State
    requires s.PhaseOf(t).Has()
  {
    var c := s.PhaseOf(t).conn;
    s.(phases := s.phases[t := Idle], lost := s.lost + [c], log := s.log + multiset{Dropped(c.id)})
  }

  function Resized(f: Factory, s: State, num: nat, to: nat): State
    requires Fills(f, s.made, num - |s.idle|, to)
  {
    var all := s.idle + Products(f, s.made, to);
    s.(idle := all[|all| - num..], made := to)
  }

  function WithOpen(p: Phase, open: bool): Phase
    requires p.Has()
  {
    match p
    case Holding(c) => Holding(c.(open := open))
    case Checking(c) => Checking(c.(open := open))
    case Running(c) => Running(c.(open := open))
  }

  function Apply(f: Factory, s: State, a: Action): State
    requires Enabled(f, s, a)
  {
    match a
    case Begin(t, timed) => s.(phases := s.phases[t := if timed && s.idle == [] then Waiting else Ready(false)])
    case BeginExec(t) => s.(phases := s.phases[t := Ready(true)])
    case Wake(t) => s.(phases := s.phases[t := Ready(false)])
    case TimeOut(t) => s.(phases := s.phases[t := Idle])
    case Lend(t, k) => LendTo(f, s, t, k)
    case LendNone(t) => s.(phases := s.phases[t := Idle])
    case Check(t) =>
      if s.PhaseOf(t).conn.open then s.(phases := s.phases[t := Running(s.PhaseOf(t).conn)]) else Drop(s, t)
    case CheckQueued(t, task) => s.(phases := s.phases[t := Idle][task := Running(s.PhaseOf(t).conn)])
    case Done(t) => Give(s, t)
    case Return(t) => Give(s, t)
    case Resize(num, to) => Resized(f, s, num, to)
    case DriftIdle(i, open) => s.(idle := s.idle[i := s.idle[i].(open := open)])
    case DriftHeld(t, open) => s.(phases := s.phases[t := WithOpen(s.PhaseOf(t), open)])
  }

  /** The state a run leads to from `s`, or nothing if a step was not possible. */
  function Exec(f: Factory, s: State, run: seq<Action>): Option<State> {
    if run == [] then Some(s)
    else
      var before := Exec(f, s, run[..|run| - 1]);
      var last := run[|run| - 1];
      if before.Some? && Enabled(f, before.value, last) then Some(Apply(f, before.value, last)) else None
  }

  // ------------------------------------------------------------- the invariant

  /** Every product is a new handle. */
  ghost predicate FreshHandles(f: Factory) {
    forall i: nat :: f(i).id == i
  }

  predicate Holds(s: State, t: nat, id: nat) {
    t in s.phases && s.phases[t].Has() && s.phases[t].conn.id == id
  }

  predicate Held(s: State, id: nat) {
    exists t :: t in s.phases && Holds(s, t, id)
  }

  predicate Distinct(q: seq<Conn>) {
    forall i, j :: 0 <= i < j < |q| ==> q[i].id != q[j].id
  }

  predicate Among(q: seq<Conn>, id: nat) {
    exists i :: 0 <= i < |q| && q[i].id == id
  }

  /** No handle is queued twice, lent twice, or both. */
  ghost predicate Exclusive(s: State) {
    && Distinct(s.idle)
    && (forall t, u, id :: Holds(s, t, id) && Holds(s, u, id) ==> t == u)
    && (forall t, id :: Holds(s, t, id) ==> !Among(s.idle, id))
  }

  /** Dropped handles never come back, and all handles are factory products. */
  ghost predicate Accounted(s: State) {
    && (forall id :: Among(s.lost, id) ==> !Among(s.idle, id) && !Held(s, id))
    && (forall id: nat :: Among(s.idle, id) || Held(s, id) || Among(s.lost, id) ==> id < s.made)
  }

  /** Every lending was answered by one return or one drop, or is still going on. */
  ghost predicate Answered(s: State) {
    forall id :: s.log[Lent(id)] == s.log[Back(id)] + s.log[Dropped(id)] + (if Held(s, id) then 1 else 0)
  }

  ghost predicate Inv(s: State) {
    Exclusive(s) && Accounted(s) && Answered(s)
  }

  // ------------------------------------------------------ what every step keeps

  predicate SameIds(q: seq<Conn>, r: seq<Conn>) {
    |q| == |r| && forall i :: 0 <= i < |q| ==> q[i].id == r[i].id
  }

  /** Steps that move no handle. */
  lemma UnmovedKeeps(s: State, s': State)
    requires Inv(s)
    requires SameIds(s.idle, s'.idle) && s'.made == s.made && s'.lost == s.lost && s'.log == s.log
    requires forall t, id :: Holds(s', t, id) <==> Holds(s, t, id)
    ensures Inv(s')
  {
  }

  lemma SameHeld(s: State, s': State, id: nat)
    requires forall t :: Holds(s', t, id) <==> Holds(s, t, id)
    ensures Held(s', id) == Held(s, id)
  {
  }

  lemma PhaseSet(s: State, s': State, t: nat, p: Phase)
    requires s'.phases == s.phases[t := p]
    ensures forall u, id :: u != t ==> (Holds(s', u, id) <==> Holds(s, u, id))
    ensures forall id :: Holds(s', t, id) <==> p.Has() && p.conn.id == id
  {
  }

  lemma HeldAfterRelease(s: State, s': State, t: nat, c: nat, id: nat)
    requires Exclusive(s) && Holds(s, t, c)
    requires forall u :: u != t ==> (Holds(s', u, id) <==> Holds(s, u, id))
    requires !Holds(s', t, id)
    ensures Held(s', id) <==> Held(s, id) && id != c
  {
  }

  lemma HeldAfterTaking(s: State, s': State, t: nat, c: nat, id: nat)
    requires !s.PhaseOf(t).Has()
    requires forall u :: u != t ==> (Holds(s', u, id) <==> Holds(s, u, id))
    requires Holds(s', t, id) <==> id == c
    ensures Held(s', id) <==> Held(s, id) || id == c
  {
  }

  lemma AmongAppend(q: seq<Conn>, c: Conn, id: nat)
    ensures Among(q + [c], id) <==> Among(q, id) || id == c.id
  {
    var r := q + [c];
    if Among(q, id) {
      var i :| 0 <= i < |q| && q[i].id == id;
      assert r[i].id == id;
    }
    if id == c.id {
      assert r[|q|].id == id;
    }
    if Among(r, id) {
      var i :| 0 <= i < |r| && r[i].id == id;
      assert i < |q| ==> q[i].id == id;
    }
  }

  lemma DistinctAppend(q: seq<Conn>, c: Conn)
    requires Distinct(q) && !Among(q, c.id)
    ensures Distinct(q + [c])
  {
  }

  lemma GiveKeeps(s: State, t: nat)
    requires Inv(s) && s.PhaseOf(t).Has()
    ensures Inv(Give(s, t))
  {
    var s', c := Give(s, t), s.PhaseOf(t).conn;
    assert Holds(s, t, c.id);
    assert Held(s, c.id);
    PhaseSet(s, s', t, Idle);
    DistinctAppend(s.idle, c);
    forall id: nat
      ensures Among(s'.idle, id) <==> Among(s.idle, id) || id == c.id
      ensures Held(s', id) <==> Held(s, id) && id != c.id
    {
      AmongAppend(s.idle, c, id);
      HeldAfterRelease(s, s', t, c.id, id);
    }
  }

  lemma DropKeeps(s: State, t: nat)
    requires Inv(s) && s.PhaseOf(t).Has()
    ensures Inv(Drop(s, t))
  {
    var s', c := Drop(s, t), s.PhaseOf(t).conn;
    assert Holds(s, t, c.id);
    assert Held(s, c.id);
    PhaseSet(s, s', t, Idle);
    forall id: nat
      ensures Among(s'.lost, id) <==> Among(s.lost, id) || id == c.id
      ensures Held(s', id) <==> Held(s, id) && id != c.id
    {
      AmongAppend(s.lost, c, id);
      HeldAfterRelease(s, s', t, c.id, id);
    }
  }

  // ------------------------------------------------------------- lending

  /** What comes to the front is queued already or a product to come. */
  lemma FrontIds(f: Factory, s: State, j: nat)
    requires FreshHandles(f)
    ensures Front(s.idle, f, s.made, j).id == if j < |s.idle| then s.idle[j].id else s.made + j - |s.idle|
  {
  }

  lemma FrontsDiffer(f: Factory, s: State, i: nat, j: nat)
    requires Inv(s) && FreshHandles(f) && i < j
    ensures Front(s.idle, f, s.made, i).id != Front(s.idle, f, s.made, j).id
  {
    FrontIds(f, s, i);
    FrontIds(f, s, j);
    if i < |s.idle| <= j {
      assert Among(s.idle, s.idle[i].id);
    }
  }

  lemma FrontFree(f: Factory, s: State, j: nat, id: nat)
    requires Inv(s) && FreshHandles(f) && id == Front(s.idle, f, s.made, j).id
    ensures !Held(s, id) && !Among(s.lost, id)
    ensures id < s.made || (j >= |s.idle| && id == s.made + j - |s.idle|)
  {
  }

  lemma RotatedFree(f: Factory, s: State, k: nat, id: nat)
    requires Inv(s) && FreshHandles(f) && s.idle != []
    requires Among(Rotated(s.idle, f, s.made, k, 1), id)
    ensures !Held(s, id) && !Among(s.lost, id) && id < s.made + k
    ensures id != Front(s.idle, f, s.made, k).id
  {
  }

  lemma RotatedDistinct(f: Factory, s: State, k: nat)
    requires Inv(s) && FreshHandles(f) && s.idle != []
    ensures Distinct(Rotated(s.idle, f, s.made, k, 1))
  {
    var q := Rotated(s.idle, f, s.made, k, 1);
    forall i, j | 0 <= i < j < |q|
      ensures q[i].id != q[j].id
    {
      FrontsDiffer(f, s, k + 1 + i, k + 1 + j);
    }
  }

  lemma LendKeeps(f: Factory, s: State, t: nat, k: nat)
    requires Inv(s) && FreshHandles(f) && s.PhaseOf(t).Ready? && s.idle != []
    ensures Inv(LendTo(f, s, t, k))
  {
    var s', c := LendTo(f, s, t, k), Front(s.idle, f, s.made, k);
    PhaseSet(s, s', t, s'.PhaseOf(t));
    FrontFree(f, s, k, c.id);
    RotatedDistinct(f, s, k);
    forall id: nat
      ensures Held(s', id) <==> Held(s, id) || id == c.id
      ensures Among(s'.idle, id) ==> !Held(s, id) && !Among(s.lost, id) && id < s'.made && id != c.id
    {
      HeldAfterTaking(s, s', t, c.id, id);
      if Among(s'.idle, id) {
        RotatedFree(f, s, k, id);
      }
    }
    forall u, v, id | Holds(s', u, id) && Holds(s', v, id)
      ensures u == v
    {
      assert u != t ==> Held(s, id) by {
        if u != t { assert Holds(s, u, id); }
      }
      assert v != t ==> Held(s, id) by {
        if v != t { assert Holds(s, v, id); }
      }
    }
    forall u, id | Holds(s', u, id)
      ensures !Among(s'.idle, id)
    {
      assert Held(s', id);
    }
  }

  // ------------------------------------------------------- tasks and resizing

  /** A task takes over the connection of the exec that started it. */
  lemma HandOverKeeps(s: State, t: nat, task: nat)
    requires Inv(s) && s.PhaseOf(t).Has() && task != t && !s.PhaseOf(task).Has()
    ensures Inv(s.(phases := s.phases[t := Idle][task := Running(s.PhaseOf(t).conn)]))
  {
    var c := s.PhaseOf(t).conn;
    var m := s.(phases := s.phases[t := Idle]);
    var s' := s.(phases := m.phases[task := Running(c)]);
    assert Holds(s, t, c.id);
    PhaseSet(s, m, t, Idle);
    PhaseSet(m, s', task, Running(c));
    forall id: nat
      ensures Held(s', id) <==> Held(s, id)
    {
      HeldAfterRelease(s, m, t, c.id, id);
      HeldAfterTaking(m, s', task, c.id, id);
      if id == c.id {
        assert Held(s, id);
      }
    }
  }

  lemma {:induction false} ProductIds(f: Factory, from: nat, to: nat)
    requires FreshHandles(f)
    ensures Distinct(Products(f, from, to))
    ensures forall id: nat :: Among(Products(f, from, to), id) ==> from <= id < to
  {
    if from >= to {
    } else {
      var before := Products(f, from, to - 1);
      ProductIds(f, from, to - 1);
      if Usable(f(to - 1)) {
        var c := f(to - 1).(open := true);
        assert !Among(before, c.id);
        DistinctAppend(before, c);
        forall id: nat | Among(Products(f, from, to), id)
          ensures from <= id < to
        {
          AmongAppend(before, c, id);
        }
      } else {
        assert Products(f, from, to) == before;
      }
    }
  }

  lemma AmongSum(q: seq<Conn>, r: seq<Conn>, id: nat)
    ensures Among(q + r, id) ==> Among(q, id) || Among(r, id)
  {
  }

  lemma DistinctSum(q: seq<Conn>, r: seq<Conn>)
    requires Distinct(q) && Distinct(r) && forall id: nat :: Among(q, id) ==> !Among(r, id)
    ensures Distinct(q + r)
  {
    forall i, j | 0 <= i < j < |q + r|
      ensures (q + r)[i].id != (q + r)[j].id
    {
      if i < |q| <= j {
        assert Among(q, q[i].id);
        assert r[j - |q|].id == (q + r)[j].id;
      }
    }
  }

  lemma AmongSuffix(q: seq<Conn>, k: nat, id: nat)
    requires k <= |q|
    ensures Among(q[k..], id) ==> Among(q, id)
  {
  }

  lemma ResizeKeeps(f: Factory, s: State, num: nat, to: nat)
    requires Inv(s) && FreshHandles(f) && Fills(f, s.made, num - |s.idle|, to)
    ensures Inv(Resized(f, s, num, to))
  {
    var s' := Resized(f, s, num, to);
    var p := Products(f, s.made, to);
    var all := s.idle + p;
    ProductIds(f, s.made, to);
    DistinctSum(s.idle, p);
    assert forall u, id :: Holds(s', u, id) <==> Holds(s, u, id);
    forall id: nat
      ensures Held(s', id) <==> Held(s, id)
      ensures Among(s'.idle, id) ==> Among(s.idle, id) || s.made <= id < s'.made
    {
      SameHeld(s, s', id);
      AmongSuffix(all, |all| - num, id);
      AmongSum(s.idle, p, id);
    }
    forall u, id | Holds(s', u, id)
      ensures !Among(s'.idle, id)
    {
      assert Holds(s, u, id);
      assert Held(s, id);
    }
  }

  lemma StepKeepsInv(f: Factory, s: State, a: Action)
    requires Inv(s) && FreshHandles(f) && Enabled(f, s, a)
    ensures Inv(Apply(f, s, a))
  {
    var s' := Apply(f, s, a);
    match a
    case Lend(t, k) => LendKeeps(f, s, t, k);
    case Done(t) => GiveKeeps(s, t);
    case Return(t) => GiveKeeps(s, t);
    case CheckQueued(t, task) => HandOverKeeps(s, t, task);
    case Resize(num, to) => ResizeKeeps(f, s, num, to);
    case Check(t) =>
      if s.PhaseOf(t).conn.open {
        PhaseSet(s, s', t, s'.PhaseOf(t));
        UnmovedKeeps(s, s');
      } else {
        DropKeeps(s, t);
      }
    case DriftIdle(_, _) => UnmovedKeeps(s, s');
    case DriftHeld(t, _) =>
      PhaseSet(s, s', t, s'.PhaseOf(t));
      UnmovedKeeps(s, s');
    case Begin(t, _) =>
      PhaseSet(s, s', t, s'.PhaseOf(t));
      UnmovedKeeps(s, s');
    case BeginExec(t) =>
      PhaseSet(s, s', t, s'.PhaseOf(t));
      UnmovedKeeps(s, s');
    case Wake(t) =>
      PhaseSet(s, s', t, s'.PhaseOf(t));
      UnmovedKeeps(s, s');
    case TimeOut(t) =>
      PhaseSet(s, s', t, s'.PhaseOf(t));
      UnmovedKeeps(s, s');
    case LendNone(t) =>
      PhaseSet(s, s', t, s'.PhaseOf(t));
      UnmovedKeeps(s, s');
  }

  lemma InitInv()
    ensures Inv(Init())
  {
  }

  lemma {:induction false} RunKeepsInv(f: Factory, s: State, run: seq<Action>)
    requires Inv(s) && FreshHandles(f) && Exec(f, s, run).Some?
    ensures Inv(Exec(f, s, run).value)
  {
    if run == [] {
    } else {
      var n := |run| - 1;
      RunKeepsInv(f, s, run[..n]);
      StepKeepsInv(f, Exec(f, s, run[..n]).value, run[n]);
    }
  }
}
