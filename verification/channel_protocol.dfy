/** `Channel` and `ObjPool` under concurrency. A producer releases a permit before
    it stores its item, a consumer acquires a permit before it takes one; between
    those two steps any other thread may run. Every step is atomic. */
module ChannelProtocol {
  import opened FiniteSets
  import opened Wrappers

  datatype Phase<T> = Idle | Storing(item: T) | Taking

  datatype Entry<T> = Entry(thread: nat, item: T)

  datatype State<T> = State(
    permits: nat,
    queue: seq<T>,
    phases: map<nat, Phase<T>>,
    stored: seq<Entry<T>>,  // everything ever put into the queue, in order, and by whom
    taken: seq<T>)          // everything ever taken out, in order
  {
    function PhaseOf(t: nat): Phase<T> {
      if t in phases then phases[t] else Idle
    }
  }

  datatype Action<T> =
    | Release(thread: nat, item: T)  // enqueue or giveback, first half
    | Store(thread: nat)             // enqueue or giveback, second half
    | Acquire(thread: nat)           // any form of dequeue or acquire, first half
    | Fail(thread: nat)              // a try that finds no permit, or times out
    | Take(thread: nat)              // any form of dequeue or acquire, second half

  /** After the constructor: all initial permits are gone. */
  function Init<T>(): State<T> {
    State(0, [], map[], [], [])
  }

  predicate Enabled<T>(s: State<T>, a: Action<T>) {
    match a
    case Release(t, _) => s.PhaseOf(t).Idle?
    case Store(t) => s.PhaseOf(t).Storing?
    case Acquire(t) => s.PhaseOf(t).Idle? && s.permits > 0
    case Fail(t) => s.PhaseOf(t).Idle?
    case Take(t) => s.PhaseOf(t).Taking? && s.queue != []
  }

  function Apply<T>(s: State<T>, a: Action<T>): State<T>
    requires Enabled(s, a)
  {
    match a
    case Release(t, x) => s.(permits := s.permits + 1, phases := s.phases[t := Storing(x)])
    case Store(t) =>
      var x := s.PhaseOf(t).item;
      s.(queue := s.queue + [x], stored := s.stored + [Entry(t, x)], phases := s.phases[t := Idle])
    case Acquire(t) => s.(permits := s.permits - 1, phases := s.phases[t := Taking])
    case Fail(_) => s
    case Take(t) =>
      s.(queue := s.queue[1..], taken := s.taken + [s.queue[0]], phases := s.phases[t := Idle])
  }

  /** The state a run leads to, or nothing if a step was not possible. */
  function Exec<T>(run: seq<Action<T>>): Option<State<T>> {
    if run == [] then Some(Init())
    else
      var before := Exec(run[..|run| - 1]);
      var last := run[|run| - 1];
      if before.Some? && Enabled(before.value, last) then Some(Apply(before.value, last)) else None
  }

  // ------------------------------------------------------------- the invariant

  /** Producers that have released a permit but not stored their item. */
  function Storers<T>(s: State<T>): set<nat> {
    set t | t in s.phases && s.phases[t].Storing?
  }

  /** Consumers that hold a permit but have not taken an item. */
  function Takers<T>(s: State<T>): set<nat> {
    set t | t in s.phases && s.phases[t].Taking?
  }

  function Items<T>(log: seq<Entry<T>>): seq<T> {
    if log == [] then [] else Items(log[..|log| - 1]) + [log[|log| - 1].item]
  }

  /** The four-term balance, and the order of the items. */
  predicate Inv<T(==)>(s: State<T>) {
    && s.permits + |Takers(s)| == |s.queue| + |Storers(s)|
    && Items(s.stored) == s.taken + s.queue
  }

  lemma PhaseMoves<T>(s: State<T>, s': State<T>, t: nat, p: Phase<T>)
    requires s'.phases == s.phases[t := p]
    ensures |Storers(s')| - (if p.Storing? then 1 else 0) == |Storers(s)| - (if s.PhaseOf(t).Storing? then 1 else 0)
    ensures |Takers(s')| - (if p.Taking? then 1 else 0) == |Takers(s)| - (if s.PhaseOf(t).Taking? then 1 else 0)
  {
    OneMoves(Storers(s), Storers(s'), t);
    OneMoves(Takers(s), Takers(s'), t);
  }

  lemma StepKeepsInv<T>(s: State<T>, a: Action<T>)
    requires Inv(s) && Enabled(s, a)
    ensures Inv(Apply(s, a))
  {
    var s' := Apply(s, a);
    if !a.Fail? {
      PhaseMoves(s, s', a.thread, s'.PhaseOf(a.thread));
    }
    if a.Store? {
      assert s'.stored[..|s.stored|] == s.stored;
    }
    if a.Take? {
      assert s.queue == [s.queue[0]] + s.queue[1..];
    }
  }

  lemma {:induction false} ReachableInv<T>(run: seq<Action<T>>)
    requires Exec(run).Some?
    ensures Inv(Exec(run).value)
  {
    if run != [] {
      var n := |run| - 1;
      ReachableInv(run[..n]);
      StepKeepsInv(Exec(run[..n]).value, run[n]);
    } else {
      var s: State<T> := Init();
      assert Storers(s) == {} && Takers(s) == {};
    }
  }

  // ------------------------------------------------------------ what it implies

  /** In every reachable state: permits plus consumers holding one equal the items
      in the queue plus producers that have yet to store one. */
  lemma Balance<T>(run: seq<Action<T>>)
    requires Exec(run).Some?
    ensures var s := Exec(run).value;
            s.permits + |Takers(s)| == |s.queue| + |Storers(s)|
  {
    ReachableInv(run);
  }

  /** The queue has an item for every consumer that holds a permit if and only if
      no more producers are between their two steps than there are free permits. */
  lemma EnoughForTakers<T>(run: seq<Action<T>>)
    requires Exec(run).Some?
    ensures var s := Exec(run).value;
            |s.queue| >= |Takers(s)| <==> |Storers(s)| <= s.permits
  {
    ReachableInv(run);
  }

  /** A consumer can meet an empty queue only while some producer is between
      releasing and storing. */
  lemma EmptyOnlyWhileStoring<T>(run: seq<Action<T>>, c: nat)
    requires Exec(run).Some? && Exec(run).value.PhaseOf(c).Taking? && Exec(run).value.queue == []
    ensures Storers(Exec(run).value) != {}
  {
    ReachableInv(run);
    assert c in Takers(Exec(run).value);
  }

  /** And it does happen: one producer halfway, one consumer. */
  lemma EmptyDequeueReachable<T>(x: T)
    ensures var end := Exec([Release(0, x), Acquire(1)]);
            end.Some? && end.value.PhaseOf(1).Taking? && end.value.queue == []
  {
    var run := [Release(0, x), Acquire(1)];
    assert run[..1] == [Release(0, x)];
    assert run[..1][..0] == [];
    assert Exec([Release(0, x)]).Some?;
  }

  /** With nobody between two steps the permits count the stored items exactly. */
  lemma QuietCount<T>(run: seq<Action<T>>)
    requires Exec(run).Some? && Storers(Exec(run).value) == {} && Takers(Exec(run).value) == {}
    ensures Exec(run).value.permits == |Exec(run).value.queue|
  {
    ReachableInv(run);
  }

  /** First in, first out: what was taken, in the order of the takes, is a prefix
      of what was stored, and the queue is the rest. */
  lemma TakenIsPrefix<T>(run: seq<Action<T>>)
    requires Exec(run).Some?
    ensures var s := Exec(run).value;
            s.taken <= Items(s.stored) && s.queue == Items(s.stored)[|s.taken|..]
  {
    ReachableInv(run);
  }

  // ------------------------------------------------------- every step counts

  function Releases<T>(run: seq<Action<T>>): nat {
    if run == [] then 0 else Releases(run[..|run| - 1]) + (if run[|run| - 1].Release? then 1 else 0)
  }

  function Stores<T>(run: seq<Action<T>>): nat {
    if run == [] then 0 else Stores(run[..|run| - 1]) + (if run[|run| - 1].Store? then 1 else 0)
  }

  function Acquires<T>(run: seq<Action<T>>): nat {
    if run == [] then 0 else Acquires(run[..|run| - 1]) + (if run[|run| - 1].Acquire? then 1 else 0)
  }

  function Takes<T>(run: seq<Action<T>>): nat {
    if run == [] then 0 else Takes(run[..|run| - 1]) + (if run[|run| - 1].Take? then 1 else 0)
  }

  /** Permits, items and histories are what the steps of the run add up to: a release
      adds a permit and an acquire uses one, a store adds an item and a take gets one;
      who has done the first half and not the second is halfway. */
  lemma {:induction false} StepsCount<T>(run: seq<Action<T>>)
    requires Exec(run).Some?
    ensures var s := Exec(run).value;
            && s.permits == Releases(run) - Acquires(run)
            && |s.queue| == Stores(run) - Takes(run)
            && |s.stored| == Stores(run) && |s.taken| == Takes(run)
            && |Storers(s)| == Releases(run) - Stores(run)
            && |Takers(s)| == Acquires(run) - Takes(run)
  {
    if run == [] {
      var s: State<T> := Init();
      assert Storers(s) == {} && Takers(s) == {};
    } else {
      var n := |run| - 1;
      var s, a := Exec(run[..n]).value, run[n];
      StepsCount(run[..n]);
      if !a.Fail? {
        PhaseMoves(s, Apply(s, a), a.thread, Apply(s, a).PhaseOf(a.thread));
      }
    }
  }

  lemma {:induction false} ItemsAt<T>(log: seq<Entry<T>>, i: nat)
    requires i < |log|
    ensures |Items(log)| == |log| && Items(log)[i] == log[i].item
  {
    var n := |log| - 1;
    if i < n {
      ItemsAt(log[..n], i);
    } else if n > 0 {
      ItemsAt(log[..n], 0);
    }
  }

  lemma {:induction false} StoredGrows<T>(run: seq<Action<T>>, n: nat)
    requires Exec(run).Some? && n <= |run|
    ensures Exec(run[..n]).Some? && Exec(run[..n]).value.taken <= Exec(run).value.taken
    ensures Exec(run[..n]).value.stored <= Exec(run).value.stored
    decreases |run|
  {
    if n == |run| {
      assert run[..n] == run;
    } else {
      assert run[..|run| - 1][..n] == run[..n];
      StoredGrows(run[..|run| - 1], n);
    }
  }

  lemma TakeStep<T>(run: seq<Action<T>>, n: nat)
    requires Exec(run).Some? && n < |run| && run[n].Take?
    ensures Exec(run[..n]).Some? && Exec(run[..n]).value.queue != [] && Exec(run[..n + 1]).Some?
    ensures Exec(run[..n + 1]).value.taken == Exec(run[..n]).value.taken + [Exec(run[..n]).value.queue[0]]
    ensures Exec(run[..n + 1]).value.taken <= Exec(run).value.taken
  {
    assert run[..n + 1][..n] == run[..n] && run[..n + 1][n] == run[n];
    StoredGrows(run, n);
    StoredGrows(run, n + 1);
  }

  /** The take that comes after `k` others gets item number `k` of those stored, which
      is then at the front of the queue. */
  lemma TakeGets<T>(run: seq<Action<T>>, n: nat)
    requires Exec(run).Some? && n < |run| && run[n].Take?
    ensures Exec(run[..n]).Some? && Exec(run[..n]).value.queue != []
    ensures var s, k := Exec(run).value, Takes(run[..n]);
            && k < |s.taken| && k < |s.stored|
            && s.taken[k] == s.stored[k].item == Exec(run[..n]).value.queue[0]
  {
    TakeStep(run, n);
    StepsCount(run[..n]);
    StepsCount(run);
    ReachableInv(run);
    ItemsAt(Exec(run).value.stored, Takes(run[..n]));
  }

  // -------------------------------------------------- nothing lost on the way in

  function ReleasedBy<T>(t: nat, run: seq<Action<T>>): seq<T> {
    if run == [] then []
    else
      var last := run[|run| - 1];
      ReleasedBy(t, run[..|run| - 1]) + (if last.Release? && last.thread == t then [last.item] else [])
  }

  function StoredBy<T>(t: nat, log: seq<Entry<T>>): seq<T> {
    if log == [] then []
    else
      var last := log[|log| - 1];
      StoredBy(t, log[..|log| - 1]) + (if last.thread == t then [last.item] else [])
  }

  function InHand<T>(p: Phase<T>): seq<T> {
    if p.Storing? then [p.item] else []
  }

  lemma StoredByNext<T>(t: nat, log: seq<Entry<T>>, e: Entry<T>)
    ensures StoredBy(t, log + [e]) == StoredBy(t, log) + (if e.thread == t then [e.item] else [])
  {
  }

  lemma StepKeepsOrder<T>(t: nat, s: State<T>, a: Action<T>, offered: seq<T>)
    requires Enabled(s, a) && offered == StoredBy(t, s.stored) + InHand(s.PhaseOf(t))
    ensures offered + (if a.Release? && a.thread == t then [a.item] else [])
         == StoredBy(t, Apply(s, a).stored) + InHand(Apply(s, a).PhaseOf(t))
  {
    if a.Store? {
      StoredByNext(t, s.stored, Entry(a.thread, s.PhaseOf(a.thread).item));
    }
  }

  /** Every producer's items arrive in the order in which it offered them, each
      exactly once, up to the one it may still have in hand. */
  lemma {:induction false} ProducerOrder<T>(t: nat, run: seq<Action<T>>)
    requires Exec(run).Some?
    ensures ReleasedBy(t, run) == StoredBy(t, Exec(run).value.stored) + InHand(Exec(run).value.PhaseOf(t))
  {
    if run == [] {
    } else {
      var n := |run| - 1;
      ProducerOrder(t, run[..n]);
      StepKeepsOrder(t, Exec(run[..n]).value, run[n], ReleasedBy(t, run[..n]));
    }
  }
}
