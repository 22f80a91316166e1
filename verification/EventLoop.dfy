/** setTimeout and clearTimeout: the clock and the timeouts that are set, each with what is known of it. */
module EventLoop {

  class EventLoop<V> {
    var now: int
    var live: map<nat, V>
    var nextId: nat

    constructor ()
      ensures now == 0 && live == map[] && nextId == 0
    {
      now, live, nextId := 0, map[], 0;
    }

    method SetTimeout(timeout: V) returns (id: nat)
      modifies this`live, this`nextId
      ensures id == old(nextId) && nextId == old(nextId) + 1 && live == old(live)[id := timeout]
    {
      id := nextId;
      nextId := nextId + 1;
      live := live[id := timeout];
    }

    method ClearTimeout(id: nat)
      modifies this`live
      ensures live == old(live) - {id}
    {
      live := live - {id};
    }
  }
}
