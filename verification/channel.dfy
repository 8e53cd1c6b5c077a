/** `Channel`, one thread at a time: a queue and a semaphore that counts it.
    `ObjPool` is the same machine under other names. */
module Channels {
  import opened Wrappers

  class Channel<T> {
    var data: seq<T>
    var sem: int
    const capa: int

    ghost predicate Valid()
      reads this
    {
      sem == |data|
    }

    /** The semaphore starts with `sz` permits, and all of them are taken at once. */
    constructor (sz: int)
      requires sz >= 0
      ensures Valid() && data == [] && capa == sz
    {
      data, sem, capa := [], sz, sz;
      new;
      for i := 0 to sz
        invariant sem == sz - i && data == []
      {
        sem := sem - 1;
      }
    }

    method Available() returns (n: int)
      requires Valid()
      ensures n == |data|
    {
      n := sem;
    }

    method Enqueue(t: T)
      requires Valid()
      modifies this
      ensures Valid() && data == old(data) + [t]
    {
      sem := sem + 1;
      data := data + [t];
    }

    /** A call returns only once it finds a permit. */
    method Dequeue() returns (t: T)
      requires Valid() && sem > 0
      modifies this
      ensures Valid() && old(data) == [t] + data
    {
      sem := sem - 1;
      t := data[0];
      data := data[1..];
    }

    method TryDequeue() returns (r: Option<T>)
      requires Valid()
      modifies this
      ensures Valid()
      ensures r.None? <==> old(data) == []
      ensures r.None? ==> data == old(data)
      ensures r.Some? ==> old(data) == [r.value] + data
    {
      if sem < 1 {
        return None;
      }
      sem := sem - 1;
      r := Some(data[0]);
      data := data[1..];
    }

    method Clear()
      requires Valid()
      modifies this
      ensures Valid() && data == [] && sem == 0
    {
      var r := TryDequeue();
      while r.Some?
        invariant Valid()
        invariant r.None? ==> data == []
        decreases |data|, r.Some?
      {
        r := TryDequeue();
      }
    }
  }
}
