/** The pool of idle upstream connections of halo/src/upstream.rs.

    A connection is a number given when it is opened.  Ghost state records where each one is:
    idle in exactly one queue, in use, or closed. */
module UpstreamPool {
  import opened Text

  const MAX_IDLE := 256

  type Conn = nat
  type Slots = map<Bytes, seq<Conn>>

  ghost predicate IsIdle(slots: Slots, c: Conn) { exists a, i :: IdleAt(slots, a, i, c) }

  predicate IdleAt(slots: Slots, a: Bytes, i: int, c: Conn) {
    a in slots && 0 <= i < |slots[a]| && slots[a][i] == c
  }

  /** No connection is idle twice. */
  ghost predicate IdleOnce(slots: Slots) {
    forall a, i, b, j, c :: IdleAt(slots, a, i, c) && IdleAt(slots, b, j, c) ==> a == b && i == j
  }

  lemma PopKeeps(slots: Slots, a: Bytes)
    requires a in slots && slots[a] != [] && IdleOnce(slots)
    ensures var now := slots[a := slots[a][1..]];
      && IdleOnce(now)
      && !IsIdle(now, slots[a][0])
      && (forall c :: c != slots[a][0] ==> (IsIdle(now, c) <==> IsIdle(slots, c)))
  {
    var now, first := slots[a := slots[a][1..]], slots[a][0];
    assert IdleAt(slots, a, 0, first);
    forall b, i, c | IdleAt(now, b, i, c) ensures IdleAt(slots, b, if b == a then i + 1 else i, c) {}
    forall b, i, c | IdleAt(slots, b, i, c) && c != first
      ensures IdleAt(now, b, if b == a then i - 1 else i, c) {}
    forall c | c != first ensures IsIdle(now, c) <==> IsIdle(slots, c) {
      if IsIdle(slots, c) {
        var b, i :| IdleAt(slots, b, i, c);
        assert IdleAt(now, b, if b == a then i - 1 else i, c);
      }
      if IsIdle(now, c) {
        var b, i :| IdleAt(now, b, i, c);
        assert IdleAt(slots, b, if b == a then i + 1 else i, c);
      }
    }
    forall b, i, d, j, c | IdleAt(now, b, i, c) && IdleAt(now, d, j, c) ensures b == d && i == j {
      assert IdleAt(slots, b, if b == a then i + 1 else i, c);
      assert IdleAt(slots, d, if d == a then j + 1 else j, c);
    }
  }

  lemma PushKeeps(slots: Slots, a: Bytes, x: Conn)
    requires a in slots && IdleOnce(slots) && !IsIdle(slots, x)
    ensures var now := slots[a := slots[a] + [x]];
      && IdleOnce(now)
      && (forall c :: IsIdle(now, c) <==> IsIdle(slots, c) || c == x)
  {
    var now := slots[a := slots[a] + [x]];
    assert IdleAt(now, a, |slots[a]|, x);
    forall b, i, c | IdleAt(now, b, i, c) && c != x ensures IdleAt(slots, b, i, c) {}
    forall b, i, c | IdleAt(slots, b, i, c) ensures IdleAt(now, b, i, c) {}
    forall b, i | IdleAt(now, b, i, x) ensures b == a && i == |slots[a]| {
      assert !IdleAt(slots, b, i, x);
    }
    forall c ensures IsIdle(now, c) <==> IsIdle(slots, c) || c == x {
      if IsIdle(slots, c) {
        var b, i :| IdleAt(slots, b, i, c);
        assert IdleAt(now, b, i, c);
      }
    }
  }

  /** An address without a queue has no idle connection. */
  function Queue(slots: Slots, addr: Bytes): seq<Conn> {
    if addr in slots then slots[addr] else []
  }

  lemma EmptyKeeps(slots: Slots, a: Bytes, now: Slots)
    requires a !in slots && IdleOnce(slots) && now == slots[a := []]
    ensures IdleOnce(now)
    ensures forall c: Conn :: IsIdle(now, c) <==> IsIdle(slots, c)
  {
    assert forall b, i, c :: IdleAt(now, b, i, c) <==> IdleAt(slots, b, i, c);
  }

  class UpstreamPool {
    var slots: Slots
    var dialled: nat
    ghost var inUse: set<Conn>
    ghost var closed: set<Conn>

    constructor ()
      ensures Valid() && inUse == {} && closed == {} && slots == map[]
    {
      slots, dialled, inUse, closed := map[], 0, {}, {};
    }

    /** Queues stay bounded, and every connection ever dialled is at exactly one place. */
    ghost predicate Valid()
      reads this
    {
      && (forall a | a in slots :: |slots[a]| <= MAX_IDLE)
      && IdleOnce(slots)
      && inUse !! closed
      && (forall c: Conn :: IsIdle(slots, c) || c in inUse || c in closed <==> c < dialled)
      && (forall c: Conn :: IsIdle(slots, c) ==> c !in inUse && c !in closed)
    }

    /** The queue of an address is created on first use. */
    method QueueFor(addr: Bytes)
      requires Valid()
      modifies this`slots
      ensures Valid() && slots == old(slots)[addr := Queue(old(slots), addr)]
    {
      if addr !in slots {
        ghost var before := slots;
        slots := slots[addr := []];
        EmptyKeeps(before, addr, slots);
        assert forall a | a in slots :: |slots[a]| <= MAX_IDLE;
      } else {
        assert slots == slots[addr := slots[addr]];
      }
    }

    /** The connection idle longest moves from idle to in use. */
    method TryGet(addr: Bytes) returns (c: Option<Conn>)
      requires Valid()
      modifies this`slots, this`inUse
      ensures Valid()
      ensures var queue := Queue(old(slots), addr);
        if queue == [] then c == None && slots == old(slots)[addr := []] && inUse == old(inUse)
        else
          && c == Some(queue[0]) && slots == old(slots)[addr := queue[1..]]
          && queue[0] !in old(inUse) && inUse == old(inUse) + {queue[0]}
    {
      QueueFor(addr);
      if slots[addr] == [] { return None; }
      var first := slots[addr][0];
      assert IdleAt(slots, addr, 0, first);
      PopKeeps(slots, addr);
      slots := slots[addr := slots[addr][1..]];
      inUse := inUse + {first};
      c := Some(first);
    }

    /** A pooled connection if there is one, else a new one, if connecting does not fail or time
        out. */
    method Get(addr: Bytes, connects: bool) returns (c: Option<Conn>)
      requires Valid()
      modifies this
      ensures Valid() && closed == old(closed)
      ensures var queue := Queue(old(slots), addr);
        && (c.None? <==> queue == [] && !connects)
        && slots == old(slots)[addr := if queue == [] then [] else queue[1..]]
        && (queue != [] ==> c == Some(queue[0]))
      ensures c.Some? ==> c.value !in old(inUse) && inUse == old(inUse) + {c.value}
      ensures c.None? ==> inUse == old(inUse)
    {
      c := TryGet(addr);
      if c.Some? { return; }
      if connects {
        c := Some(dialled);
        inUse := inUse + {dialled};
        dialled := dialled + 1;
      }
    }

    /** Back to the end of its queue, unless that is full: then it is dropped. */
    method Release(addr: Bytes, c: Conn)
      requires Valid() && c in inUse
      modifies this`slots, this`inUse, this`closed
      ensures Valid() && inUse == old(inUse) - {c}
      ensures var queue := Queue(old(slots), addr);
        if |queue| < 256 then slots == old(slots)[addr := queue + [c]] && closed == old(closed)
        else slots == old(slots) && closed == old(closed) + {c}
    {
      QueueFor(addr);
      inUse := inUse - {c};
      assert slots == old(slots)[addr := Queue(old(slots), addr)];
      if |slots[addr]| < MAX_IDLE {
        PushKeeps(slots, addr, c);
        slots := slots[addr := slots[addr] + [c]];
      } else {
        closed := closed + {c};
      }
    }

    method Discard(addr: Bytes, c: Conn)
      requires Valid() && c in inUse
      modifies this`inUse, this`closed
      ensures Valid() && inUse == old(inUse) - {c} && closed == old(closed) + {c}
    {
      inUse := inUse - {c};
      closed := closed + {c};
    }
  }
}
