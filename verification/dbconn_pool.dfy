/** `DBConnPool`: what its methods do while they hold the lock. A connection is an
    identity and what can be observed of it; the factory is a sequence of products. */
module ConnPool {
  import opened Wrappers

  /** `opens`: would a call of `open` succeed? */
  datatype Conn = Conn(id: nat, open: bool, opens: bool)

  type Factory = nat -> Conn

  // ------------------------------------------------------------ stale rotation

  /** The connections that come to the front one after another when every one in
      front is replaced at the back by a factory product. */
  function Front(conns: seq<Conn>, factory: Factory, made: nat, k: nat): Conn {
    if k < |conns| then conns[k] else factory(made + k - |conns|)
  }

  predicate Stale(conns: seq<Conn>, factory: Factory, made: nat, j: nat) {
    !Front(conns, factory, made, j).open
  }

  /** The first `k` connections that come to the front are stale. */
  predicate AllStale(conns: seq<Conn>, factory: Factory, made: nat, k: nat) {
    forall j: nat :: j < k ==> Stale(conns, factory, made, j)
  }

  /** `k` stale connections come to the front before an open one. */
  predicate FirstOpen(conns: seq<Conn>, factory: Factory, made: nat, k: nat) {
    AllStale(conns, factory, made, k) && Front(conns, factory, made, k).open
  }

  /** The queue after `k` replacements, less the `less` connections in front. */
  function Rotated(conns: seq<Conn>, factory: Factory, made: nat, k: nat, less: nat): (r: seq<Conn>)
    requires less <= |conns|
    ensures |r| == |conns| - less
    ensures forall j :: 0 <= j < |r| ==> r[j] == Front(conns, factory, made, k + less + j)
  {
    seq(|conns| - less, j requires 0 <= j < |conns| - less => Front(conns, factory, made, k + less + j))
  }

  /** The connections that were in front and stale. */
  function StaleIds(conns: seq<Conn>, factory: Factory, made: nat, k: nat): seq<nat> {
    if k == 0 then []
    else StaleIds(conns, factory, made, k - 1) + [Front(conns, factory, made, k - 1).id]
  }

  lemma RotateOnce(conns: seq<Conn>, factory: Factory, made: nat, k: nat)
    requires conns != []
    ensures var q := Rotated(conns, factory, made, k, 0);
            && q[0] == Front(conns, factory, made, k)
            && q[1..] == Rotated(conns, factory, made, k, 1)
            && q[1..] + [factory(made + k)] == Rotated(conns, factory, made, k + 1, 0)
  {
  }

  /** The rotation has gone on for `k` rounds. */
  predicate Rotating(base: seq<Conn>, factory: Factory, start: nat, gone: seq<nat>, k: nat,
                     conns: seq<Conn>, made: nat, removed: seq<nat>)
  {
    && made == start + k
    && conns == Rotated(base, factory, start, k, 0)
    && AllStale(base, factory, start, k)
    && removed == gone + StaleIds(base, factory, start, k)
  }

  lemma RotateAgain(base: seq<Conn>, factory: Factory, start: nat, gone: seq<nat>, k: nat,
                    conns: seq<Conn>, made: nat, removed: seq<nat>)
    requires base != [] && Rotating(base, factory, start, gone, k, conns, made, removed)
    requires !conns[0].open
    ensures Rotating(base, factory, start, gone, k + 1, conns[1..] + [factory(made)], made + 1, removed + [conns[0].id])
    ensures Stale(base, factory, start, k)
  {
    RotateOnce(base, factory, start, k);
  }

  /** The first open connection is found after `k` stale ones: it is taken, they are
      removed, and products stand in for them at the back. */
  predicate Taken(base: seq<Conn>, factory: Factory, start: nat, gone: seq<nat>, k: nat,
                  conn: Conn, conns: seq<Conn>, removed: seq<nat>)
  {
    && base != []
    && FirstOpen(base, factory, start, k)
    && conn == Front(base, factory, start, k)
    && conns == Rotated(base, factory, start, k, 1)
    && removed == gone + StaleIds(base, factory, start, k)
  }

  lemma RotationFinds(base: seq<Conn>, factory: Factory, start: nat, gone: seq<nat>, k: nat,
                      conns: seq<Conn>, made: nat, removed: seq<nat>)
    requires base != [] && Rotating(base, factory, start, gone, k, conns, made, removed)
    requires conns[0].open
    ensures Taken(base, factory, start, gone, k, conns[0], conns[1..], removed)
  {
    RotateOnce(base, factory, start, k);
  }

  // --------------------------------------------------------------- filling up

  predicate Usable(c: Conn) {
    c.open || c.opens
  }

  /** What `isOpen` or else `open` makes of a product. */
  function Opened(c: Conn): seq<Conn> {
    if Usable(c) then [c.(open := true)] else []
  }

  /** The usable products number `from` to `to`, opened. */
  function Products(factory: Factory, from: nat, to: nat): seq<Conn> {
    if to <= from then []
    else Products(factory, from, to - 1) + Opened(factory(to - 1))
  }

  /** Growing by `need` consumes the products up to `to`: enough of them are usable,
      and no product after the last usable one is asked for. */
  predicate Fills(factory: Factory, from: nat, need: int, to: nat) {
    && from <= to
    && |Products(factory, from, to)| == (if need > 0 then need else 0)
    && (to > from ==> need > 0 && Usable(factory(to - 1)))
  }

  /** Products up to `made` have been tried to bring the queue to `num`. */
  predicate Filling(factory: Factory, from: nat, before: seq<Conn>, seen: nat, num: nat,
                    conns: seq<Conn>, made: nat, errors: nat)
  {
    && from <= made
    && conns == before + Products(factory, from, made)
    && (made > from ==> |before| < num && |conns| <= num && (|conns| == num ==> Usable(factory(made - 1))))
    && errors == seen + (made - from) - |Products(factory, from, made)|
  }

  lemma {:induction false} ProductsGrow(factory: Factory, from: nat, to: nat, later: nat)
    requires to <= later
    ensures |Products(factory, from, to)| <= |Products(factory, from, later)|
    decreases later
  {
    if to >= later {
    } else {
      ProductsGrow(factory, from, to, later - 1);
    }
  }

  class DBConnPool {
    var conns: seq<Conn>
    var made: nat            // products taken from the factory so far
    var factory: Factory
    var removed: seq<nat>    // connections given to removeDatabase
    var errors: nat          // emissions of sigLastError

    constructor (factory: Factory)
      ensures conns == [] && made == 0 && this.factory == factory && removed == [] && errors == 0
    {
      this.factory := factory;
      conns, made, removed, errors := [], 0, [], 0;
    }

    /** The growing loop of `SetConnNum`. */
    method Grow(num: nat, rounds: nat) returns (done: bool)
      modifies this
      ensures factory == old(factory) && removed == old(removed)
      ensures made <= old(made) + rounds && (!done ==> made == old(made) + rounds)
      ensures Filling(factory, old(made), old(conns), old(errors), num, conns, made, errors)
      ensures done <==> |conns| >= num
    {
      ghost var before, from, seen := conns, made, errors;
      var k := 0;
      while |conns| < num
        invariant factory == old(factory) && removed == old(removed)
        invariant Filling(factory, from, before, seen, num, conns, made, errors)
        invariant k <= rounds && made == from + k
        decreases rounds - k
      {
        if k == rounds {
          return false;
        }
        k := k + 1;
        var db := factory(made);
        made := made + 1;
        if !db.open && !db.opens {
          errors := errors + 1;
        } else {
          conns := conns + [db.(open := true)];
        }
      }
      done := true;
    }

    /** Grows with usable products or shrinks from the front. Growing may go on for
        ever, so the loop is watched for a number of rounds; `done` says that it was
        over by then, which depends on the usable products in that many. */
    method SetConnNum(num: nat, rounds: nat) returns (done: bool)
      modifies this
      ensures factory == old(factory) && removed == old(removed)
      ensures done <==> |old(conns)| + |Products(factory, old(made), old(made) + rounds)| >= num
      ensures errors == old(errors) + (made - old(made)) - |Products(factory, old(made), made)|
      ensures done ==> made <= old(made) + rounds && Fills(factory, old(made), num - |old(conns)|, made)
      ensures done ==>
        var all := old(conns) + Products(factory, old(made), made);
        |all| >= num && conns == all[|all| - num..]
      ensures !done ==> made == old(made) + rounds && conns == old(conns) + Products(factory, old(made), made)
    {
      ghost var from := made;
      done := Grow(num, rounds);
      ProductsGrow(factory, from, made, from + rounds);
      if !done {
        return;
      }
      ghost var all, filled, failed := conns, made, errors;
      assert all[|all| - |conns|..] == conns;
      while |conns| > num
        invariant num <= |conns| <= |all|
        invariant conns == all[|all| - |conns|..]
        invariant made == filled && errors == failed && factory == old(factory) && removed == old(removed)
      {
        conns := conns[1..];
      }
    }

    /** The locked part of `acquire`, watched for a number of rounds: the first open
        connection in order, with every stale one before it replaced at the back. */
    method Acquire(rounds: nat) returns (done: bool, r: Option<Conn>)
      modifies this
      ensures factory == old(factory) && errors == old(errors)
      ensures done <==> old(conns) == [] || !AllStale(old(conns), factory, old(made), rounds)
      ensures old(conns) == [] ==> r == None && conns == [] && made == old(made) && removed == old(removed)
      ensures done && old(conns) != [] ==> r.Some? && old(made) <= made < old(made) + rounds
      ensures done && old(conns) != [] ==>
        Taken(old(conns), factory, old(made), old(removed), made - old(made), r.value, conns, removed)
      ensures !done ==> r == None
      ensures !done ==> Rotating(old(conns), factory, old(made), old(removed), rounds, conns, made, removed)
    {
      if conns == [] {
        return true, None;
      }
      ghost var base, start, gone := conns, made, removed;
      var k := 0;
      assert base == Rotated(base, factory, start, 0, 0);
      while k < rounds
        invariant factory == old(factory) && errors == old(errors)
        invariant k <= rounds && Rotating(base, factory, start, gone, k, conns, made, removed)
      {
        var conn := conns[0];
        if conn.open {
          RotationFinds(base, factory, start, gone, k, conns, made, removed);
          assert !Stale(base, factory, start, k);
          conns := conns[1..];
          return true, Some(conn);
        }
        RotateAgain(base, factory, start, gone, k, conns, made, removed);
        conns := conns[1..];
        removed := removed + [conn.id];
        conns := conns + [factory(made)];
        made := made + 1;
        k := k + 1;
      }
      return false, None;
    }

    method Giveback(db: Conn)
      modifies this
      ensures conns == old(conns) + [db]
      ensures factory == old(factory) && made == old(made) && removed == old(removed) && errors == old(errors)
    {
      conns := conns + [db];
    }

    /** `exec` without a thread pool: the query and its callback run in place. Its
        `acquire` is watched for a number of rounds. */
    method Exec(queryOk: bool, rounds: nat) returns (done: bool, ran: bool)
      modifies this
      ensures factory == old(factory)
      ensures done <==> old(conns) == [] || !AllStale(old(conns), factory, old(made), rounds)
      ensures ran <==> done && old(conns) != []
      ensures done && !ran ==> conns == [] && made == old(made) && errors == old(errors) + 1 && removed == old(removed)
      ensures ran ==> old(made) <= made < old(made) + rounds
      ensures ran ==>
        var k := made - old(made);
        && FirstOpen(old(conns), factory, old(made), k)
        && conns == Rotated(old(conns), factory, old(made), k, 1) + [Front(old(conns), factory, old(made), k)]
        && removed == old(removed) + StaleIds(old(conns), factory, old(made), k)
        && errors == old(errors) + (if queryOk then 0 else 1)
      ensures !done ==> Rotating(old(conns), factory, old(made), old(removed), rounds, conns, made, removed)
      ensures !done ==> errors == old(errors)
    {
      var over, db := Acquire(rounds);
      if !over {
        return false, false;
      }
      if db.None? || !db.value.open {
        errors := errors + 1;
        return true, false;
      }
      if !queryOk {
        errors := errors + 1;
      }
      Giveback(db.value);
      return true, true;
    }
  }

  // ------------------------------------------------------- when the loop ends

  /** Is the rotation of `acquire` still going on after `rounds` rounds? */
  predicate StillRotating(conns: seq<Conn>, factory: Factory, made: nat, rounds: nat)
    requires conns != []
    decreases rounds
  {
    rounds == 0 ||
    (!conns[0].open && StillRotating(conns[1..] + [factory(made)], factory, made + 1, rounds - 1))
  }

  lemma FrontAfterOne(conns: seq<Conn>, factory: Factory, made: nat, j: nat)
    requires conns != []
    ensures Front(conns[1..] + [factory(made)], factory, made + 1, j) == Front(conns, factory, made, j + 1)
  {
  }

  /** The rotation goes on exactly as long as stale connections come to the front:
      it ends if and only if the pool or the factory has an open one to come. */
  lemma {:induction false} RotationGoesOn(conns: seq<Conn>, factory: Factory, made: nat, rounds: nat)
    requires conns != []
    ensures StillRotating(conns, factory, made, rounds) <==> AllStale(conns, factory, made, rounds)
    decreases rounds
  {
    if rounds == 0 {
    } else {
      var next, after := conns[1..] + [factory(made)], made + 1;
      RotationGoesOn(next, factory, after, rounds - 1);
      if AllStale(conns, factory, made, rounds) {
        forall j: nat | j < rounds - 1
          ensures Stale(next, factory, after, j)
        {
          FrontAfterOne(conns, factory, made, j);
          assert Stale(conns, factory, made, j + 1);
        }
        assert Stale(conns, factory, made, 0);
      }
      if StillRotating(conns, factory, made, rounds) {
        forall j: nat | j < rounds
          ensures Stale(conns, factory, made, j)
        {
          if j > 0 {
            FrontAfterOne(conns, factory, made, j - 1);
            assert Stale(next, factory, after, j - 1);
          }
        }
      }
    }
  }

  /** Is the growing loop of setConnNum still going on after `rounds` rounds, from a
      queue of `size` connections? */
  predicate StillFilling(size: nat, num: nat, factory: Factory, made: nat, rounds: nat)
    decreases rounds
  {
    size < num &&
    (rounds == 0 || StillFilling(size + |Opened(factory(made))|, num, factory, made + 1, rounds - 1))
  }

  lemma {:induction false} ProductsFromFirst(factory: Factory, from: nat, to: nat)
    requires from < to
    ensures Products(factory, from, to) == Opened(factory(from)) + Products(factory, from + 1, to)
  {
    if to == from + 1 {
    } else {
      ProductsFromFirst(factory, from, to - 1);
    }
  }

  /** The loop goes on exactly as long as queue and usable products so far are too
      few, so it ends if and only if enough usable products are to come. */
  lemma {:induction false} FillingGoesOn(size: nat, num: nat, factory: Factory, made: nat, rounds: nat)
    ensures StillFilling(size, num, factory, made, rounds)
       <==> size + |Products(factory, made, made + rounds)| < num
    decreases rounds
  {
    if rounds == 0 {
    } else {
      FillingGoesOn(size + |Opened(factory(made))|, num, factory, made + 1, rounds - 1);
      ProductsFromFirst(factory, made, made + rounds);
    }
  }

  /** With no usable product to come the loop never ends. */
  lemma FillsForever(size: nat, num: nat, factory: Factory, made: nat, rounds: nat)
    requires size < num && forall i :: i >= made ==> !Usable(factory(i))
    ensures StillFilling(size, num, factory, made, rounds)
  {
    NoProducts(factory, made, made + rounds);
    FillingGoesOn(size, num, factory, made, rounds);
  }

  lemma {:induction false} NoProducts(factory: Factory, from: nat, to: nat)
    requires forall i :: i >= from ==> !Usable(factory(i))
    ensures Products(factory, from, to) == []
  {
    if to <= from {
    } else {
      NoProducts(factory, from, to - 1);
    }
  }

  // ---------------------------------------------------- what comes of all this

  /** The products that are open, or open when asked to, come in factory order and open;
      the others do not come at all. */
  lemma {:induction false} ProductAt(factory: Factory, from: nat, to: nat, i: nat)
    requires from <= i < to
    ensures var before := |Products(factory, from, i)|;
            && |Products(factory, from, i + 1)| == before + (if factory(i).open || factory(i).opens then 1 else 0)
            && (factory(i).open || factory(i).opens ==>
                && before < |Products(factory, from, to)|
                && Products(factory, from, to)[before] == Conn(factory(i).id, true, factory(i).opens))
  {
    if to == i + 1 {
    } else {
      ProductAt(factory, from, to - 1, i);
    }
  }

  lemma {:induction false} ProductsOpen(factory: Factory, from: nat, to: nat)
    ensures forall j :: 0 <= j < |Products(factory, from, to)| ==> Products(factory, from, to)[j].open
  {
    if to <= from {
    } else {
      ProductsOpen(factory, from, to - 1);
    }
  }

  /** Before any replacement the queue is as it was. */
  lemma RotatedStart(conns: seq<Conn>, factory: Factory, made: nat)
    ensures Rotated(conns, factory, made, 0, 0) == conns
  {
  }

  lemma {:induction false} StaleIdAt(conns: seq<Conn>, factory: Factory, made: nat, k: nat)
    ensures |StaleIds(conns, factory, made, k)| == k
    ensures forall j :: 0 <= j < k ==> StaleIds(conns, factory, made, k)[j] == Front(conns, factory, made, j).id
  {
    if k == 0 {
    } else {
      StaleIdAt(conns, factory, made, k - 1);
    }
  }

  /** The first `n` products, as the factory makes them. */
  function Made(factory: Factory, from: nat, n: nat): (r: seq<Conn>)
    ensures |r| == n && forall j :: 0 <= j < n ==> r[j] == factory(from + j)
  {
    seq(n, j requires 0 <= j < n => factory(from + j))
  }

  /** What it means to be taken from the queue: the first connection there that is open,
      with the closed ones before it removed and as many products at the back. */
  lemma TakenFromQueue(base: seq<Conn>, factory: Factory, start: nat, gone: seq<nat>, k: nat,
                       conn: Conn, conns: seq<Conn>, removed: seq<nat>)
    requires Taken(base, factory, start, gone, k, conn, conns, removed) && k < |base|
    ensures conn == base[k] && conn.open && forall j :: 0 <= j < k ==> !base[j].open
    ensures conns == base[k + 1..] + Made(factory, start, k)
    ensures |removed| == |gone| + k && removed[..|gone|] == gone
    ensures forall j :: 0 <= j < k ==> removed[|gone| + j] == base[j].id
  {
    StaleIdAt(base, factory, start, k);
    forall j | 0 <= j < k
      ensures !base[j].open
    {
      assert Stale(base, factory, start, j);
    }
  }

  /** If all that is queued is closed, the first product that comes open is taken; all
      the others before it are removed, and the next products fill the queue. */
  lemma TakenFromFactory(base: seq<Conn>, factory: Factory, start: nat, gone: seq<nat>, k: nat,
                         conn: Conn, conns: seq<Conn>, removed: seq<nat>)
    requires Taken(base, factory, start, gone, k, conn, conns, removed) && k >= |base|
    ensures var n := k - |base|;
            && conn == factory(start + n) && conn.open
            && (forall j :: 0 <= j < |base| ==> !base[j].open)
            && (forall i :: start <= i < start + n ==> !factory(i).open)
            && conns == Made(factory, start + n + 1, |base| - 1)
    ensures |removed| == |gone| + k && removed[..|gone|] == gone
    ensures forall j :: 0 <= j < k ==>
      removed[|gone| + j] == if j < |base| then base[j].id else factory(start + j - |base|).id
  {
    StaleIdAt(base, factory, start, k);
    forall j | 0 <= j < |base|
      ensures !base[j].open
    {
      assert Stale(base, factory, start, j);
    }
    forall i | start <= i < start + k - |base|
      ensures !factory(i).open
    {
      assert Stale(base, factory, start, i - start + |base|);
    }
  }

  /** The first usable product is number `i`. */
  predicate FirstUsable(factory: Factory, i: nat) {
    (factory(i).open || factory(i).opens) && forall j :: 0 <= j < i ==> !factory(j).open && !factory(j).opens
  }

  /** A new pool, told to hold some connections and then asked for one, gives out the
      first usable product, open, without replacing any. */
  method GrowThenAcquire(factory: Factory, num: nat, rounds: nat, i: nat)
    returns (r: Option<Conn>, left: nat, replaced: nat)
    requires num >= 1 && FirstUsable(factory, i)
    requires |Products(factory, 0, rounds)| >= num
    ensures r == Some(Conn(factory(i).id, true, factory(i).opens))
    ensures left == num - 1 && replaced == 0
  {
    var pool := new DBConnPool(factory);
    var grown := pool.SetConnNum(num, rounds);
    FirstComesFirst(factory, pool.made, i);
    assert pool.conns == Products(factory, 0, pool.made);
    var before := pool.made;
    assert Front(pool.conns, factory, pool.made, 0).open;
    assert !Stale(pool.conns, factory, pool.made, 0);
    var over;
    over, r := pool.Acquire(1);
    left, replaced := |pool.conns|, pool.made - before;
  }

  lemma FirstComesFirst(factory: Factory, to: nat, i: nat)
    requires FirstUsable(factory, i) && Products(factory, 0, to) != []
    ensures Products(factory, 0, to)[0] == Conn(factory(i).id, true, factory(i).opens)
  {
    NoneBefore(factory, if i < to then i else to);
    ProductAt(factory, 0, to, i);
  }

  lemma {:induction false} NoneBefore(factory: Factory, to: nat)
    requires forall j :: 0 <= j < to ==> !factory(j).open && !factory(j).opens
    ensures Products(factory, 0, to) == []
  {
    if to == 0 {
    } else {
      NoneBefore(factory, to - 1);
    }
  }
}
