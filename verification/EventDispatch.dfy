/**
 Subscription and dispatch of libvirt domain events (internal/libvirt/libvirt.go): handlers are
 registered per event id and handler id, each event id is subscribed once, and the event loop hands
 every received event to the handlers of its id.
 */
module EventDispatch {
  import opened Wrappers
  import opened Sums

  type EventId = nat
  type Handler = nat

  /** One call of WatchDomainChanges; `subscribeOk` is what libvirt would answer to a subscription. */
  datatype Registration = Registration(event: EventId, handlerId: string, handler: Handler, subscribeOk: bool)

  datatype Attempt = Attempt(event: EventId, ok: bool)

  /** One invocation of a handler by the event loop. */
  datatype Call = Call(handlerId: string, handler: Handler, value: int)

  /** What happens next around the loop; `ok` is false when the event channel was closed. */
  datatype Op =
    | Register(r: Registration)
    | Receive(event: EventId, value: int, ok: bool)
    | ContextDone
    | Disconnected

  // ----- what the history of registrations means ------------------------------------

  /** The handler registered last for this pair. */
  function LastRegistered(history: seq<Registration>, e: EventId, h: string): Option<Handler> {
    if history == [] then None
    else
      var last := history[|history| - 1];
      if last.event == e && last.handlerId == h then Some(last.handler)
      else LastRegistered(history[..|history| - 1], e, h)
  }

  /** Some registration for this id met a willing libvirt. */
  predicate Subscribed(history: seq<Registration>, e: EventId) {
    exists k | 0 <= k < |history| :: history[k].event == e && history[k].subscribeOk
  }

  function Registrations(ops: seq<Op>): seq<Registration> {
    if ops == [] then []
    else
      var last := ops[|ops| - 1];
      Registrations(ops[..|ops| - 1]) + if last.Register? then [last.r] else []
  }

  /** Every handler registered for `e` is called once with the value, and no other handler is called. */
  ghost predicate DeliveredOnce(history: seq<Registration>, e: EventId, value: int, calls: seq<Call>) {
    && (forall i, j | 0 <= i < j < |calls| :: calls[i].handlerId != calls[j].handlerId)
    && (forall c | c in calls :: LastRegistered(history, e, c.handlerId) == Some(c.handler) && c.value == value)
    && (forall h | LastRegistered(history, e, h).Some? :: exists c | c in calls :: c.handlerId == h)
  }

  /** What the loop does with operation `op` after this history: deliver a received event, otherwise call nobody. */
  ghost predicate Handled(history: seq<Registration>, op: Op, calls: seq<Call>) {
    if op.Receive? && Subscribed(history, op.event) then DeliveredOnce(history, op.event, op.value, calls)
    else calls == []
  }

  /** The receives after which the loop cannot go on. */
  predicate Fatal(history: seq<Registration>, op: Op) {
    op.Disconnected? || op.ContextDone? || (op.Receive? && Subscribed(history, op.event) && !op.ok)
  }

  function Successes(attempts: seq<Attempt>, e: EventId): nat {
    if attempts == [] then 0
    else Successes(attempts[..|attempts| - 1], e) + if attempts[|attempts| - 1] == Attempt(e, true) then 1 else 0
  }

  // ----- the code -------------------------------------------------------------------

  class LibVirt {
    var domEventChs: set<EventId>
    var handlers: map<EventId, map<string, Handler>>
    var attempts: seq<Attempt>    // subscriptions asked of libvirt
    ghost var history: seq<Registration>

    ghost function Lookup(e: EventId, h: string): Option<Handler>
      reads this
    {
      if e in handlers && h in handlers[e] then Some(handlers[e][h]) else None
    }

    ghost predicate Valid()
      reads this
    {
      && (forall e, h :: Lookup(e, h) == LastRegistered(history, e, h))
      && (forall e :: e in domEventChs <==> Subscribed(history, e))
      && (forall e | e in domEventChs :: e in handlers && handlers[e] != map[])
      && (forall e :: Successes(attempts, e) == if e in domEventChs then 1 else 0)
    }

    constructor ()
      ensures Valid() && history == [] && attempts == []
    {
      domEventChs, handlers, attempts, history := {}, map[], [], [];
    }

    /**
     Registers a handler, replacing an earlier one with the same ids, and subscribes to the event id
     unless that has already succeeded. Valid() then says: the table is the last registration of
     every pair, an id is subscribed at most once, and every subscribed id has a handler.
     */
    method WatchDomainChanges(r: Registration)
      requires Valid()
      modifies this
      ensures Valid() && history == old(history) + [r]
      ensures attempts == old(attempts) + if r.event in old(domEventChs) then [] else [Attempt(r.event, r.subscribeOk)]
    {
      RegisterHandler(r);
      HistoryGrows(history, r);
      history := history + [r];
      if r.event !in domEventChs {
        attempts := attempts + [Attempt(r.event, r.subscribeOk)];
        assert attempts[..|attempts| - 1] == old(attempts);
        if r.subscribeOk {
          domEventChs := domEventChs + {r.event};
        }
      }
    }

    method RegisterHandler(r: Registration)
      requires forall e, h :: Lookup(e, h) == LastRegistered(history, e, h)
      modifies this`handlers
      ensures forall e, h :: Lookup(e, h) == LastRegistered(history + [r], e, h)
      ensures r.event in handlers && handlers[r.event] != map[]
      ensures forall e | e in old(handlers) && e != r.event :: e in handlers && handlers[e] == old(handlers[e])
    {
      var table := if r.event in handlers then handlers[r.event] else map[];
      table := table[r.handlerId := r.handler];
      assert r.handlerId in table;
      handlers := handlers[r.event := table];
      TableFollows(history, r);
      forall e, h ensures Lookup(e, h) == LastRegistered(history + [r], e, h) {
        assert old(Lookup(e, h)) == LastRegistered(history, e, h);
      }
    }

    /** Hands one received value to the handlers of its id, in the unspecified order of the table. */
    method Distribute(e: EventId, value: int) returns (calls: seq<Call>)
      requires Valid()
      ensures DeliveredOnce(history, e, value, calls)
    {
      calls := [];
      if e !in handlers {
        forall h ensures LastRegistered(history, e, h).None? {
          assert Lookup(e, h).None?;
        }
        return;
      }
      var table := handlers[e];
      var remaining := table.Keys;
      while remaining != {}
        invariant remaining <= table.Keys
        invariant forall i, j | 0 <= i < j < |calls| :: calls[i].handlerId != calls[j].handlerId
        invariant forall c | c in calls ::
          c.handlerId in table && c.handlerId !in remaining && c == Call(c.handlerId, table[c.handlerId], value)
        invariant forall h | h in table && h !in remaining :: Call(h, table[h], value) in calls
        decreases |remaining|
      {
        var h :| h in remaining;
        calls := calls + [Call(h, table[h], value)];
        remaining := remaining - {h};
      }
      forall c | c in calls ensures LastRegistered(history, e, c.handlerId) == Some(c.handler) {
        assert Lookup(e, c.handlerId) == Some(c.handler);
      }
      forall h | LastRegistered(history, e, h).Some? ensures exists c | c in calls :: c.handlerId == h {
        assert Lookup(e, h).Some?;
        assert Call(h, table[h], value) in calls;
      }
    }

    /** One turn of the loop around its select. */
    method OneTurn(op: Op) returns (calls: seq<Call>, turn: Turn)
      requires Valid()
      modifies this
      ensures Valid()
      ensures history == old(history) + if op.Register? then [op.r] else []
      ensures turn == if Fatal(old(history), op) then Panics else GoesOn
      ensures turn == GoesOn ==> Handled(old(history), op, calls)
    {
      calls, turn := [], GoesOn;
      if op.Register? {
        WatchDomainChanges(op.r);
        return;
      }
      if op.Receive? && op.event !in domEventChs {
        return;    // not among the channels selected over
      }
      var ok := op.Receive? && op.ok;    // the other two channels are never sent to, only closed
      if !ok || op.Disconnected? {
        turn := Panics;
        return;
      }
      if op.ContextDone? {
        turn := Returns;
        return;
      }
      calls := Distribute(op.event, op.value);
    }

    /**
     The loop over everything that happens to it: each event on a subscribed channel goes exactly
     once to each handler registered for its id at that moment, and the loop ends only in the panic
     for a closed channel or a lost connection. A cancelled context arrives as a closed channel, so
     the orderly return is never taken.
     */
    method RunEventLoop(ops: seq<Op>) returns (log: seq<seq<Call>>, panicked: bool)
      requires Valid()
      modifies this
      ensures Valid() && |log| <= |ops|
      ensures history == old(history) + Registrations(ops[..|log|])
      ensures forall k | 0 <= k < |log| :: Served(old(history), ops, k, log[k])
      ensures panicked <==> |log| < |ops|
      ensures panicked ==> Fatal(history, ops[|log|])
    {
      log, panicked := [], false;
      for k := 0 to |ops|
        invariant Valid() && |log| == k
        invariant history == old(history) + Registrations(ops[..k])
        invariant forall m | 0 <= m < k :: Served(old(history), ops, m, log[m])
      {
        var calls, turn := OneTurn(ops[k]);
        if turn == Panics {
          return log, true;
        }
        assert ops[..k + 1][..k] == ops[..k];
        log := log + [calls];
      }
    }
  }

  datatype Turn = GoesOn | Panics | Returns

  /** Operation `k` did not end the loop, and the loop did with it what the registrations before it say. */
  ghost predicate Served(before: seq<Registration>, ops: seq<Op>, k: nat, calls: seq<Call>)
    requires k < |ops|
  {
    var history := before + Registrations(ops[..k]);
    !Fatal(history, ops[k]) && Handled(history, ops[k], calls)
  }

  /**
   The loop goes on exactly past registrations, receives over open channels, and channels nobody subscribed to; it
   delivers exactly what it receives over a subscribed channel.
   */
  lemma ServedExactly(before: seq<Registration>, ops: seq<Op>, k: nat, calls: seq<Call>)
    requires k < |ops|
    ensures var known := before + Registrations(ops[..k]);
      Served(before, ops, k, calls) <==>
        match ops[k]
        case Register(_) => calls == []
        case Receive(e, value, ok) => if Subscribed(known, e) then ok && DeliveredOnce(known, e, value, calls) else calls == []
        case ContextDone => false
        case Disconnected => false
    ensures Fatal(before + Registrations(ops[..k]), ops[k]) <==> forall c :: !Served(before, ops, k, c)
  {
    var known, op := before + Registrations(ops[..k]), ops[k];
    if op.Receive? && Subscribed(known, op.event) {
      var c := SomeDelivery(known, op.event, op.value);
      assert op.ok ==> Served(before, ops, k, c);
    } else {
      assert op.Register? || op.Receive? ==> Served(before, ops, k, []);
    }
  }

  /** Every event can be delivered: the handlers registered for its id are finitely many. */
  lemma {:induction false} SomeDelivery(history: seq<Registration>, e: EventId, value: int) returns (calls: seq<Call>)
    ensures DeliveredOnce(history, e, value, calls)
  {
    if history == [] {
      calls := [];
    } else {
      var n, r := |history| - 1, history[|history| - 1];
      var rest := history[..n];
      var earlier := SomeDelivery(rest, e, value);
      assert history == rest + [r];
      TableFollows(rest, r);
      if r.event != e {
        calls := earlier;
      } else {
        calls := WithCall(earlier, Call(r.handlerId, r.handler, value));
      }
    }
  }

  /** The calls with one more, in place of an earlier one for the same handler id. */
  function WithCall(calls: seq<Call>, c: Call): (out: seq<Call>)
    requires forall i, j | 0 <= i < j < |calls| :: calls[i].handlerId != calls[j].handlerId
    ensures forall i, j | 0 <= i < j < |out| :: out[i].handlerId != out[j].handlerId
    ensures forall d :: d in out <==> d == c || (d in calls && d.handlerId != c.handlerId)
  {
    if calls == [] then [c]
    else
      var n := |calls| - 1;
      var last, rest := calls[n], calls[..n];
      assert calls == rest + [last];
      if last.handlerId == c.handlerId then
        assert forall d | d in rest :: d.handlerId != c.handlerId;
        rest + [c]
      else WithCall(rest, c) + [last]
  }

  lemma TableFollows(before: seq<Registration>, r: Registration)
    ensures forall e, h ::
      LastRegistered(before + [r], e, h)
        == if r.event == e && r.handlerId == h then Some(r.handler) else LastRegistered(before, e, h)
  {
    assert (before + [r])[..|before|] == before;
  }

  lemma HistoryGrows(history: seq<Registration>, r: Registration)
    ensures forall e :: Subscribed(history + [r], e) <==> Subscribed(history, e) || (r.event == e && r.subscribeOk)
  {
    var more := history + [r];
    forall e ensures Subscribed(more, e) <==> Subscribed(history, e) || (r.event == e && r.subscribeOk) {
      if Subscribed(history, e) {
        var k :| 0 <= k < |history| && history[k].event == e && history[k].subscribeOk;
        assert more[k].event == e;
      }
      if r.event == e && r.subscribeOk {
        assert more[|history|].event == e;
      }
    }
  }

  // ----- what the specification pins down -------------------------------------------

  /** Registration `k` names the pair with handler `x`, and no later one names the pair. */
  predicate LastAt(history: seq<Registration>, k: nat, e: EventId, h: string, x: Handler) {
    && k < |history|
    && history[k].event == e && history[k].handlerId == h && history[k].handler == x
    && forall m | k < m < |history| :: history[m].event != e || history[m].handlerId != h
  }

  /** The table entry of a pair is the handler of the last registration that names it. */
  lemma {:induction false} LastRegisteredMeans(history: seq<Registration>, e: EventId, h: string, x: Handler)
    ensures LastRegistered(history, e, h) == Some(x) <==> exists k :: LastAt(history, k, e, h, x)
  {
    if history != [] {
      var n, rest := |history| - 1, history[..|history| - 1];
      LastRegisteredMeans(rest, e, h, x);
      if history[n].event == e && history[n].handlerId == h {
        assert LastAt(history, n, e, h, history[n].handler);
      } else {
        forall k: nat ensures LastAt(history, k, e, h, x) <==> LastAt(rest, k, e, h, x) {
          assert forall m | 0 <= m < |rest| :: rest[m] == history[m];
        }
      }
    }
  }

  /**
   The calls made for an event, told by the registrations: one with the event's value for every handler id that some
   registration for the event names, with the handler of the last such registration.
   */
  lemma DeliveredExactly(history: seq<Registration>, e: EventId, value: int, calls: seq<Call>)
    ensures DeliveredOnce(history, e, value, calls) <==>
      && (forall i, j | 0 <= i < j < |calls| :: calls[i].handlerId != calls[j].handlerId)
      && (forall c :: c in calls <==> c.value == value && exists k :: LastAt(history, k, e, c.handlerId, c.handler))
  {
    forall h: string, x: Handler
      ensures LastRegistered(history, e, h) == Some(x) <==> exists k :: LastAt(history, k, e, h, x)
    {
      LastRegisteredMeans(history, e, h, x);
    }
    if forall c :: c in calls <==> c.value == value && exists k :: LastAt(history, k, e, c.handlerId, c.handler) {
      forall h | LastRegistered(history, e, h).Some? ensures exists c | c in calls :: c.handlerId == h {
        var x := LastRegistered(history, e, h).value;
        assert Call(h, x, value) in calls;
      }
    }
    if DeliveredOnce(history, e, value, calls) {
      forall c ensures c in calls <==> c.value == value && exists k :: LastAt(history, k, e, c.handlerId, c.handler) {
        if c.value == value && exists k :: LastAt(history, k, e, c.handlerId, c.handler) {
          assert LastRegistered(history, e, c.handlerId) == Some(c.handler);
          var d :| d in calls && d.handlerId == c.handlerId;
          assert d == c;
        }
      }
    }
  }

  /** The calls made for an event are determined up to order. */
  lemma DeliveryDetermined(history: seq<Registration>, e: EventId, value: int, calls1: seq<Call>, calls2: seq<Call>)
    requires DeliveredOnce(history, e, value, calls1) && DeliveredOnce(history, e, value, calls2)
    ensures multiset(calls1) == multiset(calls2)
  {
    DistinctMultiset(calls1);
    DistinctMultiset(calls2);
    assert (set c | c in calls1) == (set c | c in calls2) by {
      forall c | c in calls1 ensures c in calls2 {
        var c' :| c' in calls2 && c'.handlerId == c.handlerId;
      }
      forall c | c in calls2 ensures c in calls1 {
        var c' :| c' in calls1 && c'.handlerId == c.handlerId;
      }
    }
  }
}
