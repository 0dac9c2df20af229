/**
 The tracing middlewares as tower services: `call` hands the inner handle it was polled
 on to the future it returns, and keeps a fresh clone for the next call. The gRPC client,
 gRPC server and axum services share this swap.
 */
module TowerReadiness {
  import opened Options
  import opened Sequences

  // ---------------------------------------------------------------------------
  // The services as objects
  // ---------------------------------------------------------------------------

  // An inner service that tracks readiness per handle: it may panic when called
  // without having answered ready to the same handle since its last call.
  class Inner {
    var ready: bool
    var calls: nat

    // A new handle, and likewise a clone of any other, has been polled by nobody.
    constructor ()
      ensures !ready && calls == 0
    {
      ready, calls := false, 0;
    }

    method PollReady(answer: bool)
      modifies this`ready
      ensures ready == answer
    {
      ready := answer;
    }

    // Panics on a handle that has not answered ready since its last call.
    method Call() returns (panicked: bool)
      modifies this
      ensures panicked <==> !old(ready)
      ensures !ready && calls == old(calls) + 1
    {
      panicked := !ready;
      ready := false;
      calls := calls + 1;
    }
  }

  class TraceService {
    var inner: Inner

    constructor (inner: Inner)
      ensures this.inner == inner
    {
      this.inner := inner;
    }

    method PollReady(answer: bool)
      modifies inner`ready
      ensures inner.ready == answer
    {
      inner.PollReady(answer);
    }

    // The handle the returned future will call.
    method Call() returns (future: Inner)
      modifies this
      ensures future == old(inner) && future.ready == old(inner.ready) && future.calls == old(inner.calls)
      ensures fresh(inner) && !inner.ready && inner.calls == 0
    {
      var clone := new Inner();
      future := inner;
      inner := clone;
    }

    // The future's first poll.
    static method Start(future: Inner) returns (panicked: bool)
      modifies future
      ensures panicked <==> !old(future.ready)
      ensures !future.ready && future.calls == old(future.calls) + 1
    {
      panicked := future.Call();
    }

    method Clone() returns (service: TraceService)
      ensures fresh(service) && fresh(service.inner) && !service.inner.ready && service.inner.calls == 0
    {
      var clone := new Inner();
      service := new TraceService(clone);
    }
  }

  // ---------------------------------------------------------------------------
  // Any number of services and futures at once
  // ---------------------------------------------------------------------------

  datatype Handle = Handle(ready: bool, calls: nat)

  // How a future called the inner service: on a handle polled ready, never called
  // before, that nothing else holds.
  datatype Fire = Fire(future: nat, ready: bool, unused: bool, unique: bool)

  // Which handle each live service and each future not yet started holds.
  datatype World = World(handles: seq<Handle>, services: seq<Option<nat>>, futures: seq<Option<nat>>, fired: seq<Fire>)

  datatype Event =
    | Poll(service: nat, answer: bool)
    | Clone(service: nat)
    | Call(service: nat)
    | DropService(service: nat)
    // The future is polled for the first time.
    | Start(future: nat)
    | DropFuture(future: nat)

  const UNPOLLED := Handle(false, 0)

  function At(holders: seq<Option<nat>>, i: nat): Option<nat> {
    if i < |holders| then holders[i] else None
  }

  predicate HeldElsewhere(w: World, future: nat, h: nat) {
    || (exists i :: 0 <= i < |w.services| && w.services[i] == Some(h))
    || (exists j :: 0 <= j < |w.futures| && j != future && w.futures[j] == Some(h))
  }

  ghost predicate InRange(w: World) {
    && (forall i :: 0 <= i < |w.services| && w.services[i].Some? ==> w.services[i].value < |w.handles|)
    && (forall j :: 0 <= j < |w.futures| && w.futures[j].Some? ==> w.futures[j].value < |w.handles|)
  }

  // An event on a service or future that is gone does nothing.
  function Step(w: World, e: Event): (w': World)
    requires InRange(w)
    ensures InRange(w')
  {
    match e
    case Poll(i, answer) =>
      if At(w.services, i).None? then w
      else
        var h := w.services[i].value;
        w.(handles := w.handles[h := w.handles[h].(ready := answer)])
    case Clone(i) =>
      if At(w.services, i).None? then w
      else w.(handles := w.handles + [UNPOLLED], services := w.services + [Some(|w.handles|)])
    case Call(i) =>
      if At(w.services, i).None? then w
      else w.(handles := w.handles + [UNPOLLED],
              services := w.services[i := Some(|w.handles|)],
              futures := w.futures + [w.services[i]])
    case DropService(i) => if At(w.services, i).None? then w else w.(services := w.services[i := None])
    case Start(j) =>
      if At(w.futures, j).None? then w
      else
        var h := w.futures[j].value;
        var handle := w.handles[h];
        World(w.handles[h := Handle(false, handle.calls + 1)],
              w.services,
              w.futures[j := None],
              w.fired + [Fire(j, handle.ready, handle.calls == 0, !HeldElsewhere(w, j, h))])
    case DropFuture(j) => if At(w.futures, j).None? then w else w.(futures := w.futures[j := None])
  }

  // One service on one handle, and then anything in any order.
  function Run(es: seq<Event>): (w: World)
    ensures InRange(w)
  {
    if es == [] then World([UNPOLLED], [Some(0)], [], []) else Step(Run(Front(es)), Last(es))
  }

  // ---------------------------------------------------------------------------
  // The callers' side: what they asked for, without any handle
  // ---------------------------------------------------------------------------

  // For every service made: whether it is still there, and whether the last answer
  // since it was made or last called was ready. For every call made: whether the
  // service had been polled ready for it, and whether its future is still to start.
  // And which futures were started, in order.
  datatype Callers =
    Callers(alive: seq<bool>, polled: seq<bool>, calls: seq<bool>, pending: seq<bool>, started: seq<nat>)

  function Ask(c: Callers, e: Event): (c': Callers)
    requires |c.alive| == |c.polled| && |c.calls| == |c.pending|
    ensures |c'.alive| == |c'.polled| && |c'.calls| == |c'.pending|
  {
    match e
    case Poll(i, answer) => if i < |c.alive| && c.alive[i] then c.(polled := c.polled[i := answer]) else c
    case Clone(i) =>
      if i < |c.alive| && c.alive[i] then c.(alive := c.alive + [true], polled := c.polled + [false]) else c
    case Call(i) =>
      if i < |c.alive| && c.alive[i] 
      then c.(polled := c.polled[i := false], calls := c.calls + [c.polled[i]], pending := c.pending + [true]) else c
    case DropService(i) => if i < |c.alive| then c.(alive := c.alive[i := false]) else c
    case Start(j) =>
      if j < |c.pending| && c.pending[j] then c.(pending := c.pending[j := false], started := c.started + [j]) else c
    case DropFuture(j) => if j < |c.pending| then c.(pending := c.pending[j := false]) else c
  }

  function Asked(es: seq<Event>): (c: Callers)
    ensures |c.alive| == |c.polled| && |c.calls| == |c.pending|
  {
    if es == [] then Callers([true], [false], [], [], []) else Ask(Asked(Front(es)), Last(es))
  }

  // ---------------------------------------------------------------------------
  // The contract
  // ---------------------------------------------------------------------------

  // No two holders share a handle.
  ghost predicate IsExclusive(w: World) {
    && (forall i, j :: 0 <= i < j < |w.services| && w.services[i].Some? ==> w.services[i] != w.services[j])
    && (forall i, j :: 0 <= i < j < |w.futures| && w.futures[i].Some? ==> w.futures[i] != w.futures[j])
    && (forall i, j :: 0 <= i < |w.services| && 0 <= j < |w.futures| && w.services[i].Some? ==>
          w.services[i] != w.futures[j])
  }

  // A service holds a handle nobody called, ready exactly when it was polled ready.
  ghost predicate ServicesMatch(w: World, c: Callers)
    requires InRange(w)
  {
    && |w.services| == |c.alive| == |c.polled|
    && forall i :: 0 <= i < |w.services| ==>
         && (w.services[i].Some? <==> c.alive[i])
         && (w.services[i].Some? ==> w.handles[w.services[i].value] == Handle(c.polled[i], 0))
  }

  // So does a future not yet started, ready exactly when its call was polled for.
  ghost predicate FuturesMatch(w: World, c: Callers)
    requires InRange(w)
  {
    && |w.futures| == |c.calls| == |c.pending|
    && forall j :: 0 <= j < |w.futures| ==>
         && (w.futures[j].Some? <==> c.pending[j])
         && (w.futures[j].Some? ==> w.handles[w.futures[j].value] == Handle(c.calls[j], 0))
  }

  // Each future started has fired once, in order, and is gone.
  ghost predicate FiresMatch(w: World, c: Callers) {
    && |w.fired| == |c.started| && |w.futures| == |c.calls|
    && (forall i :: 0 <= i < |w.fired| ==>
          && c.started[i] < |c.calls| && w.futures[c.started[i]].None?
          && w.fired[i] == Fire(c.started[i], c.calls[c.started[i]], true, true))
    && (forall i, j :: 0 <= i < j < |c.started| ==> c.started[i] != c.started[j])
  }

  ghost predicate Matches(w: World, c: Callers) {
    InRange(w) && IsExclusive(w) && ServicesMatch(w, c) && FuturesMatch(w, c) && FiresMatch(w, c)
  }

  lemma PollKeepsMatch(w: World, c: Callers, i: nat, answer: bool)
    requires Matches(w, c)
    ensures Matches(Step(w, Poll(i, answer)), Ask(c, Poll(i, answer)))
  {
  }

  lemma CloneKeepsMatch(w: World, c: Callers, i: nat)
    requires Matches(w, c)
    ensures Matches(Step(w, Clone(i)), Ask(c, Clone(i)))
  {
  }

  lemma CallKeepsMatch(w: World, c: Callers, i: nat)
    requires Matches(w, c)
    ensures Matches(Step(w, Call(i)), Ask(c, Call(i)))
  {
  }

  lemma DropsKeepMatch(w: World, c: Callers, e: Event)
    requires Matches(w, c) && (e.DropService? || e.DropFuture?)
    ensures Matches(Step(w, e), Ask(c, e))
  {
  }

  lemma NothingElseHolds(w: World, future: nat, h: nat)
    requires InRange(w) && IsExclusive(w) && At(w.futures, future) == Some(h)
    ensures !HeldElsewhere(w, future, h)
  {
    assert w.futures[future] == Some(h);
  }

  lemma StartKeepsMatch(w: World, c: Callers, j: nat)
    requires Matches(w, c)
    ensures Matches(Step(w, Start(j)), Ask(c, Start(j)))
  {
    if At(w.futures, j).Some? {
      NothingElseHolds(w, j, w.futures[j].value);
    }
  }

  lemma {:induction false} RunMatchesCallers(es: seq<Event>)
    ensures Matches(Run(es), Asked(es))
  {
    if es != [] {
      RunMatchesCallers(Front(es));
      var w, c := Run(Front(es)), Asked(Front(es));
      match Last(es) {
        case Poll(i, answer) => PollKeepsMatch(w, c, i, answer);
        case Clone(i) => CloneKeepsMatch(w, c, i);
        case Call(i) => CallKeepsMatch(w, c, i);
        case Start(j) => StartKeepsMatch(w, c, j);
        case _ => DropsKeepMatch(w, c, Last(es));
      }
    }
  }

  // Over every run, for any number of services and futures at once: a future that is
  // started calls the inner service once, and one that is dropped first never, on a handle nothing else holds and nobody has
  // called, and that handle was polled ready exactly when the caller had polled the
  // service ready before the call that made the future, however much later it starts.
  lemma FuturesCallReadyHandles(es: seq<Event>)
    ensures var w, c := Run(es), Asked(es);
            && |w.futures| == |c.calls| && |w.fired| == |c.started|
            && (forall i :: 0 <= i < |w.fired| ==>
                  c.started[i] < |c.calls| && w.fired[i] == Fire(c.started[i], c.calls[c.started[i]], true, true))
            && (forall i, j :: 0 <= i < j < |w.fired| ==> w.fired[i].future != w.fired[j].future)
  {
    RunMatchesCallers(es);
  }

  // If callers poll before every call, the inner service is never called on a
  // handle that is not ready.
  lemma PollingBeforeEveryCallIsEnough(es: seq<Event>)
    requires forall i :: 0 <= i < |Asked(es).calls| ==> Asked(es).calls[i]
    ensures forall f :: f in Run(es).fired ==> f.ready && f.unused && f.unique
  {
    FuturesCallReadyHandles(es);
  }
}
