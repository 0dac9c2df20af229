/**
 Who ends the boot: every initialisation returns a handle, and the handle whose
 initialisation connected the timeline closes the boot before it stops its provider.
 An application may also connect the timeline itself, and then no handle owns it.
 */
module BootOwnership {
  import opened BootClock
  import opened BootTimeline
  import opened BootExports
  import opened Options
  import opened Sequences

  datatype Handle = Handle(provider: nat, owner: bool)

  datatype Action =
    | Init(provider: nat, service: string)
    // Shutting a handle down, or dropping it.
    | Shutdown(handle: nat, now: int)
    // Any thread of the application, including one that flushes the timeline or stops
    // a provider itself.
    | Application(event: Event)

  datatype Process = Process(handles: seq<Handle>, es: seq<Event>)

  function Act(env: Env, p: Process, a: Action): Process {
    match a
    case Init(provider, service) =>
      Process(p.handles + [Handle(provider, Run(env, p.es).state.exporter.None?)],
              p.es + [AttachEv(provider, service)])
    case Shutdown(h, now) =>
      if h >= |p.handles| then p
      else
        var handle := p.handles[h];
        p.(es := p.es + [if handle.owner then CloseEv(now, handle.provider) else StopEv(handle.provider)])
    case Application(e) => if e.CloseEv? then p else p.(es := p.es + [e])
  }

  function Live(env: Env, acts: seq<Action>): Process {
    if acts == [] then Process([], []) else Act(env, Live(env, Front(acts)), Last(acts))
  }

  predicate IsOwner(p: Process, h: nat) {
    h < |p.handles| && p.handles[h].owner
  }

  // Some owner has been shut down or dropped.
  function OwnerShutDown(env: Env, acts: seq<Action>): bool {
    acts != [] &&
    (OwnerShutDown(env, Front(acts)) ||
     (Last(acts).Shutdown? && IsOwner(Live(env, Front(acts)), Last(acts).handle)))
  }

  // The timeline was first connected by an initialisation.
  function ConnectedByInit(env: Env, acts: seq<Action>): bool {
    acts != [] &&
    (ConnectedByInit(env, Front(acts)) ||
     (Last(acts).Init? && FirstAttach(Live(env, Front(acts)).es).None?))
  }

  // ---------------------------------------------------------------------------
  // One owner
  // ---------------------------------------------------------------------------

  ghost predicate OwnersMatch(env: Env, p: Process) {
    && (forall i, j :: 0 <= i < |p.handles| && 0 <= j < |p.handles| && p.handles[i].owner && p.handles[j].owner ==> i == j)
    && (forall i :: 0 <= i < |p.handles| && p.handles[i].owner ==>
          ExporterOf(env, p.es) == Some(Exporter(p.handles[i].provider, env.clock.originWall)))
    && (forall i :: 0 <= i < |p.es| && p.es[i].CloseEv? ==>
          FirstAttach(p.es).Some? && FirstAttach(p.es).value < i)
  }

  lemma AppendKeepsAttach(env: Env, es: seq<Event>, e: Event)
    ensures FirstAttach(es).Some? ==> FirstAttach(es + [e]) == FirstAttach(es)
    ensures ExporterOf(env, es).Some? ==> ExporterOf(env, es + [e]) == ExporterOf(env, es)
  {
    assert Front(es + [e]) == es;
  }

  lemma ActKeepsOwners(env: Env, p: Process, a: Action)
    requires OwnersMatch(env, p)
    ensures OwnersMatch(env, Act(env, p, a))
  {
    match a {
      case Init(provider, service) =>
        ReachableState(env, p.es);
        AppendKeepsOwners(env, p, AttachEv(provider, service));
        InitKeepsOwners(env, p, provider, service);
      case Shutdown(h, now) =>
        if h < |p.handles| {
          var handle := p.handles[h];
          AppendKeepsOwners(env, p, if handle.owner then CloseEv(now, handle.provider) else StopEv(handle.provider));
        }
      case Application(e) =>
        if !e.CloseEv? {
          AppendKeepsOwners(env, p, e);
        }
    }
  }

  lemma AppendKeepsOwners(env: Env, p: Process, e: Event)
    requires OwnersMatch(env, p)
    requires e.CloseEv? ==> FirstAttach(p.es).Some?
    ensures OwnersMatch(env, p.(es := p.es + [e]))
  {
    AppendKeepsAttach(env, p.es, e);
  }

  lemma InitKeepsOwners(env: Env, p: Process, provider: nat, service: string)
    requires OwnersMatch(env, p) && OwnersMatch(env, p.(es := p.es + [AttachEv(provider, service)]))
    requires Run(env, p.es).state.exporter == ExporterOf(env, p.es)
    ensures OwnersMatch(env, Act(env, p, Init(provider, service)))
  {
    assert Front(p.es + [AttachEv(provider, service)]) == p.es;
  }

  // At most one handle ever owns the timeline, and it is the one whose provider
  // the timeline exports to; nobody closes the boot before then.
  lemma {:induction false} AtMostOneOwner(env: Env, acts: seq<Action>)
    ensures OwnersMatch(env, Live(env, acts))
  {
    if acts != [] {
      AtMostOneOwner(env, Front(acts));
      ActKeepsOwners(env, Live(env, Front(acts)), Last(acts));
    }
  }

  predicate HasOwner(p: Process) {
    exists handle :: handle in p.handles && handle.owner
  }

  lemma HasOwnerOfAppend(p: Process, p': Process, handle: Handle)
    requires p'.handles == p.handles + [handle]
    ensures HasOwner(p') <==> HasOwner(p) || handle.owner
  {
    if HasOwner(p) {
      var owner :| owner in p.handles && owner.owner;
      assert owner in p'.handles;
    }
    assert handle in p'.handles;
  }

  // Some handle owns the timeline exactly when an initialisation connected it first.
  lemma {:induction false} OwnerConnected(env: Env, acts: seq<Action>)
    ensures HasOwner(Live(env, acts)) <==> ConnectedByInit(env, acts)
  {
    if acts != [] {
      var p, p' := Live(env, Front(acts)), Live(env, acts);
      OwnerConnected(env, Front(acts));
      ReachableState(env, p.es);
      if Last(acts).Init? {
        HasOwnerOfAppend(p, p', Last(p'.handles));
      }
    }
  }

  // The first initialisation connects the timeline to its own provider, under its own
  // service name unless one was set, and any later one leaves the timeline as it is.
  lemma FirstInitConnects(env: Env, acts: seq<Action>, provider: nat, service: string)
    ensures var before, after := Live(env, acts), Live(env, acts + [Init(provider, service)]);
            var s, s' := Run(env, before.es).state, Run(env, after.es).state;
            && after.handles == before.handles + [Handle(provider, s.exporter.None?)]
            && (s.exporter.Some? ==> s' == s)
            && (s.exporter.None? ==>
                  && s'.exporter == Some(Exporter(provider, env.clock.originWall))
                  && s'.service == if s.service.Some? then s.service else Some(service))
  {
    assert Front(acts + [Init(provider, service)]) == acts;
    var es := Live(env, acts).es;
    assert Front(es + [AttachEv(provider, service)]) == es;
  }

  // A handle that does not own the timeline leaves it as it was.
  lemma NonOwnerLeavesTimeline(env: Env, acts: seq<Action>, h: nat, now: int)
    requires !IsOwner(Live(env, acts), h)
    ensures var before, after := Live(env, acts).es, Live(env, acts + [Shutdown(h, now)]).es;
            && Run(env, after).state == Run(env, before).state
            && Only(Issued(env, after), IsRootEnd) == Only(Issued(env, before), IsRootEnd)
            && Only(Issued(env, after), IsExport) == Only(Issued(env, before), IsExport)
  {
    var before, after := Live(env, acts).es, Live(env, acts + [Shutdown(h, now)]).es;
    assert Front(acts + [Shutdown(h, now)]) == acts;
    if after != before {
      assert Front(after) == before && Last(after).StopEv?;
      var stop := [StopProvider(Last(after).provider)];
      assert Issued(env, after) == Issued(env, before) + stop;
      OnlyOfConcat(Issued(env, before), stop, IsRootEnd);
      OnlyOfConcat(Issued(env, before), stop, IsExport);
      OnlyNone(stop, IsRootEnd);
      OnlyNone(stop, IsExport);
    }
  }

  // ---------------------------------------------------------------------------
  // Whether the root span is ended at all
  // ---------------------------------------------------------------------------

  predicate HasClose(es: seq<Event>) {
    exists e :: e in es && e.CloseEv?
  }

  lemma HasCloseOfAppend(es: seq<Event>, e: Event)
    ensures HasClose(es + [e]) <==> HasClose(es) || e.CloseEv?
  {
    if HasClose(es) {
      var x :| x in es && x.CloseEv?;
      assert x in es + [e];
    }
    assert e in es + [e];
  }

  lemma {:induction false} ClosedExactlyByOwner(env: Env, acts: seq<Action>)
    ensures HasClose(Live(env, acts).es) <==> OwnerShutDown(env, acts)
  {
    if acts != [] {
      var es, es' := Live(env, Front(acts)).es, Live(env, acts).es;
      ClosedExactlyByOwner(env, Front(acts));
      if es' != es {
        assert es' == es + [Last(es')];
        HasCloseOfAppend(es, Last(es'));
      }
    }
  }

  // Over every run, the root span is ended exactly when the timeline was connected
  // and either the boot reached ready or a handle that owns it was shut down: the
  // end is handed out once, and done once every operation has returned.
  lemma RootEndsWhenReadyOrOwnerShutDown(env: Env, acts: seq<Action>)
    ensures var es := Live(env, acts).es;
            && |Only(Issued(env, es), IsRootEnd)| <= 1
            && (|Only(Issued(env, es), IsRootEnd)| == 1
                <==> FirstAttach(es).Some? && (FirstReady(es).Some? || OwnerShutDown(env, acts)))
    ensures var es := Live(env, acts).es;
            Quiescent(Run(env, es)) ==>
              (HasRootEnd(multiset(Run(env, es).done))
               <==> FirstAttach(es).Some? && (FirstReady(es).Some? || OwnerShutDown(env, acts)))
    ensures OwnerShutDown(env, acts) ==> ConnectedByInit(env, acts)
  {
    var es := Live(env, acts).es;
    RootEndIsDoneOrInFlight(env, es);
    if Quiescent(Run(env, es)) {
      NothingInFlight(Run(env, es).tasks);
    }
    IssuedRootEnds(env, es);
    AtMostOneOwner(env, acts);
    ClosedExactlyByOwner(env, acts);
    if HasClose(es) {
      var i :| 0 <= i < |es| && es[i].CloseEv?;
      assert ClosedAfterAttach(es);
    }
    OwnerConnected(env, acts);
    if OwnerShutDown(env, acts) {
      OwnerShutDownNeedsOwner(env, acts);
    }
  }

  lemma {:induction false} OwnerShutDownNeedsOwner(env: Env, acts: seq<Action>)
    requires OwnerShutDown(env, acts)
    ensures HasOwner(Live(env, acts))
  {
    var p, p' := Live(env, Front(acts)), Live(env, acts);
    if OwnerShutDown(env, Front(acts)) {
      OwnerShutDownNeedsOwner(env, Front(acts));
      if Last(acts).Init? {
        HasOwnerOfAppend(p, p', Last(p'.handles));
      }
    } else {
      assert p'.handles[Last(acts).handle] in p'.handles;
    }
  }

  // Handle `h` was shut down, or dropped, after it was made.
  function ShutDown(env: Env, acts: seq<Action>, h: nat): bool {
    acts != [] &&
    (ShutDown(env, Front(acts), h) ||
     (Last(acts).Shutdown? && Last(acts).handle == h && h < |Live(env, Front(acts)).handles|))
  }

  lemma {:induction false} ShutDownOfOwner(env: Env, acts: seq<Action>, h: nat)
    requires ShutDown(env, acts, h)
    ensures h < |Live(env, acts).handles|
    ensures Live(env, acts).handles[h].owner ==> OwnerShutDown(env, acts)
  {
    if ShutDown(env, Front(acts), h) {
      ShutDownOfOwner(env, Front(acts), h);
    }
  }

  // Over every run in which every handle was shut down and the boot never reached
  // ready, the root span is ended exactly when an initialisation, not the
  // application, connected the timeline first.
  lemma AllShutDownEndsTheRoot(env: Env, acts: seq<Action>)
    requires FirstReady(Live(env, acts).es).None?
    requires forall h :: 0 <= h < |Live(env, acts).handles| ==> ShutDown(env, acts, h)
    ensures var es := Live(env, acts).es;
            && |Only(Issued(env, es), IsRootEnd)| <= 1
            && (|Only(Issued(env, es), IsRootEnd)| == 1 <==> ConnectedByInit(env, acts))
            && (Quiescent(Run(env, es)) ==> (HasRootEnd(multiset(Run(env, es).done)) <==> ConnectedByInit(env, acts)))
  {
    var p := Live(env, acts);
    RootEndsWhenReadyOrOwnerShutDown(env, acts);
    AtMostOneOwner(env, acts);
    OwnerConnected(env, acts);
    if HasOwner(p) {
      var h :| 0 <= h < |p.handles| && p.handles[h].owner;
      ShutDownOfOwner(env, acts, h);
    }
  }

  // The boot is not closed where the application flushed the timeline before
  // initialising telemetry: every handle is shut down, and no root is ended.
  lemma FlushBeforeInitLosesTheRoot(env: Env)
    ensures var acts := [Application(AttachEv(0, "app")), Init(1, "app"), Shutdown(0, 0)];
            var es := Live(env, acts).es;
            && |Live(env, acts).handles| == 1
            && FirstAttach(es).Some?
            && Only(Issued(env, es), IsRootEnd) == []
  {
    FlushActions(env, "app");
    var acts := [Application(AttachEv(0, "app")), Init(1, "app"), Shutdown(0, 0)];
    FlushedFirst(env, acts);
    RootEndsWhenReadyOrOwnerShutDown(env, acts);
    assert FirstReady(Live(env, acts).es).None?;
  }

  lemma FlushActions(env: Env, name: string)
    ensures Live(env, [Application(AttachEv(0, name)), Init(1, name), Shutdown(0, 0)])
         == Process([Handle(1, false)], [AttachEv(0, name), AttachEv(1, name), StopEv(1)])
  {
    var a, b, c := Application(AttachEv(0, name)), Init(1, name), Shutdown(0, 0);
    var acts := [a, b, c];
    FlushedFirst(env, [a]);
    var es1, es2 := [AttachEv(0, name)], [AttachEv(0, name), AttachEv(1, name)];
    Extend(env, [], a, Process([], es1));
    assert [] + [a] == [a] && [a] + [b] == [a, b] && [a, b] + [c] == acts;
    ReachableState(env, es1);
    Extend(env, [a], b, Process([Handle(1, false)], es2));
    Extend(env, [a, b], c, Process([Handle(1, false)], es2 + [StopEv(1)]));
  }

  // Where the application flushes the timeline before anything else, no handle
  // ever owns it.
  lemma {:induction false} FlushedFirst(env: Env, acts: seq<Action>)
    requires acts != [] && acts[0].Application? && acts[0].event.AttachEv?
    ensures FirstAttach(Live(env, acts).es).Some? && !ConnectedByInit(env, acts)
  {
    var pre, e := Front(acts), acts[0].event;
    if pre == [] {
      assert Last(acts) == acts[0];
      assert Live(env, acts).es == [] + [e];
      assert Front([] + [e]) == [];
    } else {
      FlushedFirst(env, pre);
      ActKeepsAttach(env, Live(env, pre), Last(acts));
    }
  }

  lemma ActKeepsAttach(env: Env, p: Process, a: Action)
    requires FirstAttach(p.es).Some?
    ensures FirstAttach(Act(env, p, a).es) == FirstAttach(p.es)
  {
    var es := Act(env, p, a).es;
    if es != p.es {
      assert es == p.es + [Last(es)];
      AppendKeepsAttach(env, p.es, Last(es));
    }
  }

  // ---------------------------------------------------------------------------
  // Whether the root span is ended in time
  // ---------------------------------------------------------------------------

  // When its owner is shut down, the root has been taken: by this call if nothing
  // took it before, and then only once, however often the owner is shut down.
  lemma OwnerShutdownTakesTheRoot(env: Env, acts: seq<Action>, h: nat, now: int)
    requires IsOwner(Live(env, acts), h)
    ensures var before, after := Live(env, acts).es, Live(env, acts + [Shutdown(h, now)]).es;
            && Run(env, after).state.rootEnded
            && |Only(Issued(env, after), IsRootEnd)| == 1
            && (Run(env, before).state.rootEnded ==>
                  Only(Issued(env, after), IsRootEnd) == Only(Issued(env, before), IsRootEnd))
  {
    var acts' := acts + [Shutdown(h, now)];
    assert Front(acts') == acts;
    var before, after := Live(env, acts).es, Live(env, acts').es;
    assert Front(after) == before;
    RootEndsWhenReadyOrOwnerShutDown(env, acts');
    AtMostOneOwner(env, acts);
    AppendKeepsAttach(env, before, Last(after));
    assert after == before + [Last(after)];
    ReachableState(env, after);
    ReachableState(env, before);
    RootDueStep(after);
    IssuedRootEnds(env, before);
    IssuedRootEnds(env, after);
  }

  // Where nothing took the root before, an owner's shutdown ends it as incomplete, on its
  // own provider, at the instant of the call, with the phases recorded by then.
  lemma OwnerShutdownEndsIncomplete(env: Env, acts: seq<Action>, h: nat, now: int)
    requires IsOwner(Live(env, acts), h) && !Run(env, Live(env, acts).es).state.rootEnded
    ensures var s, elapsed := Run(env, Live(env, acts).es).state, if now >= env.clock.origin then now - env.clock.origin else 0;
            Only(Issued(env, Live(env, acts + [Shutdown(h, now)]).es), IsRootEnd)
            == [EndRoot(Exporter(Live(env, acts).handles[h].provider, env.clock.originWall),
                        env.clock.originWall + elapsed, Incomplete, |s.phases|, s.dropped)]
  {
    var p := Live(env, acts);
    assert Front(acts + [Shutdown(h, now)]) == acts;
    AtMostOneOwner(env, acts);
    CloseEndsIncomplete(env, p.es, now, p.handles[h].provider);
  }

  lemma CloseEndsIncomplete(env: Env, es: seq<Event>, now: int, provider: nat)
    requires ExporterOf(env, es).Some? && !Run(env, es).state.rootEnded
    ensures var s, elapsed := Run(env, es).state, if now >= env.clock.origin then now - env.clock.origin else 0;
            Only(Issued(env, es + [CloseEv(now, provider)]), IsRootEnd)
            == [EndRoot(ExporterOf(env, es).value, env.clock.originWall + elapsed, Incomplete, |s.phases|, s.dropped)]
  {
    var s, e := Run(env, es).state, CloseEv(now, provider);
    NoRootEndYet(env, es);
    EndsOfClose(env, s, now, provider, Locked(env, s, e).1);
    IssuedOfAppend(env, es, e, Locked(env, s, e).1);
    OnlyOfConcat(Issued(env, es), Locked(env, s, e).1, IsRootEnd);
  }

  lemma EndsOfClose(env: Env, s: State, now: int, provider: nat, work: seq<Work>)
    requires s.exporter.Some? && !s.rootEnded && work == Locked(env, s, CloseEv(now, provider)).1
    ensures var elapsed := if now >= env.clock.origin then now - env.clock.origin else 0;
            Only(work, IsRootEnd)
            == [EndRoot(s.exporter.value, env.clock.originWall + elapsed, Incomplete, |s.phases|, s.dropped)]
  {
    RootEndsOfClose(env, s, now, provider);
  }

  lemma IssuedOfAppend(env: Env, es: seq<Event>, e: Event, work: seq<Work>)
    requires work == Locked(env, Run(env, es).state, e).1
    ensures Issued(env, es + [e]) == Issued(env, es) + work
  {
    assert Front(es + [e]) == es;
  }

  lemma NoRootEndYet(env: Env, es: seq<Event>)
    requires !Run(env, es).state.rootEnded
    ensures Run(env, es).state.exporter == ExporterOf(env, es)
    ensures Only(Issued(env, es), IsRootEnd) == []
  {
    ReachableState(env, es);
    IssuedRootEnds(env, es);
  }

  // However other operations interleave, one operation performs its work in order:
  // what it has left is the end of what it had, and what it has not left is done.
  lemma {:induction false} TaskRunsInOrder(env: Env, es: seq<Event>, later: seq<Event>, task: nat)
    requires task < |Run(env, es).tasks|
    ensures var was, now := Run(env, es), Run(env, es + later);
            && task < |now.tasks| && |now.tasks[task]| <= |was.tasks[task]|
            && now.tasks[task] == was.tasks[task][|was.tasks[task]| - |now.tasks[task]|..]
            && was.done <= now.done
            && forall i :: 0 <= i < |was.tasks[task]| - |now.tasks[task]| ==> was.tasks[task][i] in now.done
  {
    if later == [] {
      assert es + later == es;
    } else {
      TaskRunsInOrder(env, es, Front(later), task);
      assert Front(es + later) == es + Front(later);
      StepPerformsFirst(env, Run(env, es + Front(later)), Last(later), task);
    }
  }

  lemma StepPerformsFirst(env: Env, sys: System, e: Event, task: nat)
    requires task < |sys.tasks|
    ensures var next := Step(env, sys, e);
            && task < |next.tasks| && sys.done <= next.done
            && (next.tasks[task] == sys.tasks[task]
                || (sys.tasks[task] != [] && next.tasks[task] == sys.tasks[task][1..] && sys.tasks[task][0] in next.done))
  {
  }

  ghost predicate HasRootEnd(work: multiset<Work>) {
    exists w :: w in work && w.EndRoot?
  }

  lemma CloseWork(env: Env, s: State, now: int, provider: nat)
    requires s.exporter.Some?
    ensures var work := Locked(env, s, CloseEv(now, provider)).1;
            && work != [] && Last(work) == StopProvider(provider)
            && (s.rootEnded ==> Front(work) == [])
            && (!s.rootEnded ==> |Front(work)| == 1 && Front(work)[0].EndRoot?)
  {
  }

  lemma RootEndStaysDone(was: seq<Work>, now: seq<Work>)
    requires was <= now && HasRootEnd(multiset(was))
    ensures HasRootEnd(multiset(now))
  {
    var w :| w in multiset(was) && w.EndRoot?;
    assert w in was;
    assert w in now;
  }

  // The system after the locked section of the owner's shutdown and whatever follows.
  function AfterClose(env: Env, es: seq<Event>, now: int, provider: nat, later: seq<Event>): System {
    Run(env, es + [CloseEv(now, provider)] + later)
  }

  lemma ClosedTask(env: Env, es: seq<Event>, now: int, provider: nat)
    ensures var sys := Run(env, es);
            var closed := AfterClose(env, es, now, provider, []);
            && |closed.tasks| == |sys.tasks| + 1 && closed.done == sys.done
            && closed.tasks[|sys.tasks|] == Locked(env, sys.state, CloseEv(now, provider)).1
  {
    assert es + [CloseEv(now, provider)] + [] == es + [CloseEv(now, provider)];
    assert Front(es + [CloseEv(now, provider)]) == es;
  }

  // With no end of the root in flight, a shutdown with only its last item left has
  // ended the root, whatever was done in between.
  lemma RootEndedByStop(env: Env, es: seq<Event>, now: int, provider: nat, later: seq<Event>)
    requires ExporterOf(env, es).Some? && !HasRootEnd(InFlight(Run(env, es).tasks))
    requires |Run(env, es).tasks| < |AfterClose(env, es, now, provider, later).tasks|
    requires |AfterClose(env, es, now, provider, later).tasks[|Run(env, es).tasks|]| <= 1
    ensures HasRootEnd(multiset(AfterClose(env, es, now, provider, later).done))
  {
    var sys, after := Run(env, es), AfterClose(env, es, now, provider, later);
    var work := Locked(env, sys.state, CloseEv(now, provider)).1;
    ClosedTask(env, es, now, provider);
    assert es + [CloseEv(now, provider)] + [] == es + [CloseEv(now, provider)];
    TaskRunsInOrder(env, es + [CloseEv(now, provider)], later, |sys.tasks|);
    ReachableState(env, es);
    CloseWork(env, sys.state, now, provider);
    if sys.state.rootEnded {
      RootEndIsDoneOrInFlight(env, es);
      RootEndStaysDone(sys.done, after.done);
    } else {
      assert work[0] == Front(work)[0];
      assert work[0] in after.done;
      assert work[0] in multiset(after.done);
    }
  }

  // With one in flight, the provider can be stopped next, and the root has not ended.
  lemma StopBeforeRootEnd(env: Env, es: seq<Event>, now: int, provider: nat)
    requires ExporterOf(env, es).Some? && HasRootEnd(InFlight(Run(env, es).tasks))
    ensures var sys := Run(env, es);
            var closed := AfterClose(env, es, now, provider, []);
            var stopped := AfterClose(env, es, now, provider, [PerformEv(|sys.tasks|)]);
            && |closed.tasks| == |sys.tasks| + 1
            && closed.tasks[|sys.tasks|] == [StopProvider(provider)] && !HasRootEnd(multiset(closed.done))
            && stopped.done == sys.done + [StopProvider(provider)] && !HasRootEnd(multiset(stopped.done))
  {
    var sys := Run(env, es);
    var work := Locked(env, sys.state, CloseEv(now, provider)).1;
    var stop := StopProvider(provider);
    ReachableState(env, es);
    RootEndIsDoneOrInFlight(env, es);
    CloseWork(env, sys.state, now, provider);
    assert work == Front(work) + [Last(work)];
    ClosedTask(env, es, now, provider);
    assert es + [CloseEv(now, provider)] + [] == es + [CloseEv(now, provider)];
    ExtendPerform(env, es + [CloseEv(now, provider)], |sys.tasks|, stop, []);
    assert multiset(sys.done + [stop]) == multiset(sys.done) + multiset{stop};
  }

  // Over everything that can happen once the owner's shutdown has run its locked
  // section, the root span has ended by the time only the stop of the provider is
  // left if and only if no other thread was about to end it; and where one was, the
  // provider can be stopped first.
  lemma RootEndsBeforeProviderStops(env: Env, acts: seq<Action>, h: nat, now: int)
    requires IsOwner(Live(env, acts), h)
    ensures var es, provider := Live(env, acts).es, Live(env, acts).handles[h].provider;
            var sys := Run(env, es);
            var task := |sys.tasks|;
            var closed := AfterClose(env, es, now, provider, []);
            && |closed.tasks| == task + 1
            && closed.tasks[task] != [] && Last(closed.tasks[task]) == StopProvider(provider)
            && ((forall later ::
                   var after := AfterClose(env, es, now, provider, later);
                   task < |after.tasks| && |after.tasks[task]| <= 1 ==> HasRootEnd(multiset(after.done)))
                <==> !HasRootEnd(InFlight(sys.tasks)))
            && (HasRootEnd(InFlight(sys.tasks)) ==>
                  var stopped := AfterClose(env, es, now, provider, [PerformEv(task)]);
                  stopped.done == sys.done + [StopProvider(provider)] && !HasRootEnd(multiset(stopped.done)))
  {
    var es, provider := Live(env, acts).es, Live(env, acts).handles[h].provider;
    var sys := Run(env, es);
    AtMostOneOwner(env, acts);
    ReachableState(env, es);
    CloseWork(env, sys.state, now, provider);
    ClosedTask(env, es, now, provider);
    if HasRootEnd(InFlight(sys.tasks)) {
      StopBeforeRootEnd(env, es, now, provider);
    } else {
      forall later | var after := AfterClose(env, es, now, provider, later);
                     |sys.tasks| < |after.tasks| && |after.tasks[|sys.tasks|]| <= 1
        ensures HasRootEnd(multiset(AfterClose(env, es, now, provider, later).done))
      {
        RootEndedByStop(env, es, now, provider, later);
      }
    }
  }

  // The one end of the root is done or in flight, not both.
  lemma RootEndIsDoneOrInFlight(env: Env, es: seq<Event>)
    ensures var sys := Run(env, es);
            && (RootDue(es) ==> (HasRootEnd(multiset(sys.done)) <==> !HasRootEnd(InFlight(sys.tasks))))
            && (!RootDue(es) ==> !HasRootEnd(multiset(sys.done)) && !HasRootEnd(InFlight(sys.tasks)))
  {
    var sys := Run(env, es);
    forall w | w in multiset(sys.done) && w.EndRoot?
      ensures RootDue(es) && w == RootEnding(env, TakingRun(es).value) && w !in InFlight(sys.tasks)
    {
      SingleRootEnd(env, es, w);
    }
    forall w | w in InFlight(sys.tasks) && w.EndRoot?
      ensures RootDue(es) && w == RootEnding(env, TakingRun(es).value) && w !in multiset(sys.done)
    {
      SingleRootEnd(env, es, w);
    }
    if RootDue(es) {
      SingleRootEnd(env, es, RootEnding(env, TakingRun(es).value));
    }
  }

  lemma RaceActions(env: Env)
    ensures var t := env.clock.origin;
            Live(env, [Init(0, "app"), Application(ReadyEv(t)), Shutdown(0, t),
                       Application(PerformEv(2)), Application(PerformEv(1)), Application(PerformEv(1))]).es
            == [AttachEv(0, "app"), ReadyEv(t), CloseEv(t, 0), PerformEv(2), PerformEv(1), PerformEv(1)]
  {
    var t := env.clock.origin;
    var acts1, p1 := [Init(0, "app")], Process([Handle(0, true)], [AttachEv(0, "app")]);
    assert Front(acts1) == [] && Live(env, []) == Process([], []);
    assert Live(env, acts1) == p1;
    var acts2, p2 := acts1 + [Application(ReadyEv(t))], p1.(es := p1.es + [ReadyEv(t)]);
    Extend(env, acts1, Application(ReadyEv(t)), p2);
    var acts3, p3 := acts2 + [Shutdown(0, t)], p2.(es := p2.es + [CloseEv(t, 0)]);
    Extend(env, acts2, Shutdown(0, t), p3);
    var acts4, p4 := acts3 + [Application(PerformEv(2))], p3.(es := p3.es + [PerformEv(2)]);
    Extend(env, acts3, Application(PerformEv(2)), p4);
    var acts5, p5 := acts4 + [Application(PerformEv(1))], p4.(es := p4.es + [PerformEv(1)]);
    Extend(env, acts4, Application(PerformEv(1)), p5);
    var acts6, p6 := acts5 + [Application(PerformEv(1))], p5.(es := p5.es + [PerformEv(1)]);
    Extend(env, acts5, Application(PerformEv(1)), p6);
    assert acts6 == [Init(0, "app"), Application(ReadyEv(t)), Shutdown(0, t), Application(PerformEv(2)),
                     Application(PerformEv(1)), Application(PerformEv(1))];
  }

  lemma RaceLocked(env: Env)
    ensures var t := env.clock.origin;
            var exporter, wall := Exporter(0, env.clock.originWall), Wall(env.clock, t);
            var s := State(Some("app"), [], 0, Some(ReadyMark(wall, 0)), Some(exporter), true);
            var ready := [WriteLine(ReadyLine(0, env.clock.source, "app")), EndRoot(exporter, wall, Ready, 0, 0)];
            Run(env, [AttachEv(0, "app"), ReadyEv(t), CloseEv(t, 0)]) == System(s, [[], ready, [StopProvider(0)]], [])
  {
    var t := env.clock.origin;
    var exporter, wall := Exporter(0, env.clock.originWall), Wall(env.clock, t);
    var s1 := State(Some("app"), [], 0, None, Some(exporter), false);
    var s2 := State(Some("app"), [], 0, Some(ReadyMark(wall, 0)), Some(exporter), true);
    var ready := [WriteLine(ReadyLine(0, env.clock.source, "app")), EndRoot(exporter, wall, Ready, 0, 0)];
    var es1 := [AttachEv(0, "app")];
    assert Front(es1) == [];
    assert Run(env, es1) == System(s1, [[]], []);
    assert ReadyStep(env, s1, t).1 == ready;
    ExtendRun(env, es1, ReadyEv(t), System(s2, [[], ready], []));
    assert Locked(env, s2, CloseEv(t, 0)).1 == [StopProvider(0)];
    ExtendRun(env, es1 + [ReadyEv(t)], CloseEv(t, 0), System(s2, [[], ready, [StopProvider(0)]], []));
    assert es1 + [ReadyEv(t)] + [CloseEv(t, 0)] == [AttachEv(0, "app"), ReadyEv(t), CloseEv(t, 0)];
  }

  // Such a race on a boot that reached ready: a thread has marked
  // the boot ready and is about to end the root when the owner shuts down.
  lemma ReadyInFlightLosesTheRace(env: Env)
    ensures var acts := [Init(0, "app"), Application(ReadyEv(env.clock.origin)), Shutdown(0, env.clock.origin),
                         Application(PerformEv(2)), Application(PerformEv(1)), Application(PerformEv(1))];
            var done := Run(env, Live(env, acts).es).done;
            |done| == 3 && done[0] == StopProvider(0) && done[1].WriteLine? && done[2].EndRoot?
  {
    RaceActions(env);
    RaceLocked(env);
    var t := env.clock.origin;
    var es := [AttachEv(0, "app"), ReadyEv(t), CloseEv(t, 0)];
    var line, end := Run(env, es).tasks[1][0], Run(env, es).tasks[1][1];
    ExtendPerform(env, es, 2, StopProvider(0), []);
    var es1 := es + [PerformEv(2)];
    ExtendPerform(env, es1, 1, line, [end]);
    var es2 := es1 + [PerformEv(1)];
    ExtendPerform(env, es2, 1, end, []);
    assert es2 + [PerformEv(1)]
        == [AttachEv(0, "app"), ReadyEv(t), CloseEv(t, 0), PerformEv(2), PerformEv(1), PerformEv(1)];
  }

  lemma OverlapActions(env: Env, name: string)
    ensures var t := env.clock.origin;
            Live(env, [Init(0, name), Shutdown(0, t), Shutdown(0, t), Application(PerformEv(2)), Application(PerformEv(1))])
            == Process([Handle(0, true)],
                       [AttachEv(0, name), CloseEv(t, 0), CloseEv(t, 0), PerformEv(2), PerformEv(1)])
  {
    var t, handles := env.clock.origin, [Handle(0, true)];
    var acts, es := [Init(0, name), Shutdown(0, t), Shutdown(0, t)], [AttachEv(0, name), CloseEv(t, 0), CloseEv(t, 0)];
    OverlappingShutdowns(env, name);
    Extend(env, acts, Application(PerformEv(2)), Process(handles, es + [PerformEv(2)]));
    Extend(env, acts + [Application(PerformEv(2))], Application(PerformEv(1)),
           Process(handles, es + [PerformEv(2)] + [PerformEv(1)]));
    assert acts + [Application(PerformEv(2))] + [Application(PerformEv(1))]
        == [Init(0, name), Shutdown(0, t), Shutdown(0, t), Application(PerformEv(2)), Application(PerformEv(1))];
  }

  lemma OverlappingShutdowns(env: Env, name: string)
    ensures var t := env.clock.origin;
            Live(env, [Init(0, name), Shutdown(0, t), Shutdown(0, t)])
            == Process([Handle(0, true)], [AttachEv(0, name), CloseEv(t, 0), CloseEv(t, 0)])
  {
    var t, handles := env.clock.origin, [Handle(0, true)];
    var acts, es := [Init(0, name)], [AttachEv(0, name)];
    Extend(env, [], Init(0, name), Process(handles, es));
    assert [] + [Init(0, name)] == acts;
    Extend(env, acts, Shutdown(0, t), Process(handles, es + [CloseEv(t, 0)]));
    Extend(env, acts + [Shutdown(0, t)], Shutdown(0, t), Process(handles, es + [CloseEv(t, 0)] + [CloseEv(t, 0)]));
    assert acts + [Shutdown(0, t)] + [Shutdown(0, t)] == [Init(0, name), Shutdown(0, t), Shutdown(0, t)];
  }

  lemma OverlapLocked(env: Env, name: string)
    ensures var t := env.clock.origin;
            var exporter, wall := Exporter(0, env.clock.originWall), Wall(env.clock, t);
            var s := State(Some(name), [], 0, None, Some(exporter), true);
            Run(env, [AttachEv(0, name), CloseEv(t, 0), CloseEv(t, 0)])
            == System(s, [[], [EndRoot(exporter, wall, Incomplete, 0, 0), StopProvider(0)], [StopProvider(0)]], [])
  {
    var t := env.clock.origin;
    var exporter, wall := Exporter(0, env.clock.originWall), Wall(env.clock, t);
    var s1 := State(Some(name), [], 0, None, Some(exporter), false);
    var s2 := s1.(rootEnded := true);
    var first := [EndRoot(exporter, wall, Incomplete, 0, 0), StopProvider(0)];
    var es1 := [AttachEv(0, name)];
    assert Front(es1) == [];
    assert Run(env, es1) == System(s1, [[]], []);
    assert Locked(env, s1, CloseEv(t, 0)).1 == first;
    ExtendRun(env, es1, CloseEv(t, 0), System(s2, [[], first], []));
    assert Locked(env, s2, CloseEv(t, 0)).1 == [StopProvider(0)];
    ExtendRun(env, es1 + [CloseEv(t, 0)], CloseEv(t, 0), System(s2, [[], first, [StopProvider(0)]], []));
    assert es1 + [CloseEv(t, 0)] + [CloseEv(t, 0)] == [AttachEv(0, name), CloseEv(t, 0), CloseEv(t, 0)];
  }

  // Nor is a boot that never reached ready safe: two threads shut the owner down at
  // once, and the second stops the provider before the first has ended the root.
  lemma OverlappingShutdownsLoseTheRace(env: Env)
    ensures var t := env.clock.origin;
            var acts := [Init(0, "app"), Shutdown(0, t), Shutdown(0, t),
                         Application(PerformEv(2)), Application(PerformEv(1))];
            var es := Live(env, acts).es;
            var done := Run(env, es).done;
            && FirstReady(es).None?
            && |done| == 2 && done[0] == StopProvider(0) && done[1].EndRoot? && done[1].outcome.Incomplete?
  {
    OverlapActions(env, "app");
    OverlapRuns(env, "app");
  }

  lemma OverlapRuns(env: Env, name: string)
    ensures var t := env.clock.origin;
            var es := [AttachEv(0, name), CloseEv(t, 0), CloseEv(t, 0), PerformEv(2), PerformEv(1)];
            && FirstReady(es).None?
            && Run(env, es).done
               == [StopProvider(0), EndRoot(Exporter(0, env.clock.originWall), Wall(env.clock, t), Incomplete, 0, 0)]
  {
    var t := env.clock.origin;
    OverlapLocked(env, name);
    var es := [AttachEv(0, name), CloseEv(t, 0), CloseEv(t, 0)];
    var end := EndRoot(Exporter(0, env.clock.originWall), Wall(env.clock, t), Incomplete, 0, 0);
    ExtendPerform(env, es, 2, StopProvider(0), []);
    ExtendPerform(env, es + [PerformEv(2)], 1, end, [StopProvider(0)]);
    var all := [AttachEv(0, name), CloseEv(t, 0), CloseEv(t, 0), PerformEv(2), PerformEv(1)];
    assert es + [PerformEv(2)] + [PerformEv(1)] == all;
    assert forall i :: 0 <= i < |all| ==> !all[i].ReadyEv?;
  }

  lemma Extend(env: Env, acts: seq<Action>, a: Action, p: Process)
    requires Act(env, Live(env, acts), a) == p
    ensures Live(env, acts + [a]) == p
  {
    assert Front(acts + [a]) == acts;
  }

  lemma ExtendRun(env: Env, es: seq<Event>, e: Event, sys: System)
    requires var next := Step(env, Run(env, es), e);
             next.state == sys.state && next.tasks == sys.tasks && next.done == sys.done
    ensures Run(env, es + [e]) == sys
  {
    assert Front(es + [e]) == es;
  }

  lemma ExtendPerform(env: Env, es: seq<Event>, task: nat, w: Work, rest: seq<Work>)
    requires task < |Run(env, es).tasks| && Run(env, es).tasks[task] == [w] + rest
    ensures var sys := Run(env, es);
            Run(env, es + [PerformEv(task)]) == System(sys.state, sys.tasks[task := rest], sys.done + [w])
  {
    assert Front(es + [PerformEv(task)]) == es;
    assert ([w] + rest)[1..] == rest;
  }
}
