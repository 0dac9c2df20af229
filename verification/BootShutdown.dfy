/**
 Whether the root span of a boot is exported: it has to be ended, and ended before
 its provider is stopped. Exact over every run and every way the work that the
 operations have left is scheduled.
 */
module BootShutdown {
  import opened BootTimeline
  import opened BootExports
  import opened BootOwnership
  import opened Options
  import opened Sequences

  // The provider is never stopped before the root span has ended.
  ghost predicate StoppedAfterRoot(done: seq<Work>, provider: nat) {
    forall i :: 0 <= i < |done| && done[i] == StopProvider(provider) ==> HasRootEnd(multiset(done[..i]))
  }

  predicate OnlyPerforms(es: seq<Event>) {
    forall e :: e in es ==> e.PerformEv?
  }

  // At no point of a run, however the work left by then is scheduled, is the provider
  // stopped before the root span has ended.
  ghost predicate NeverStopsEarly(env: Env, es: seq<Event>, provider: nat) {
    forall i, later :: 0 <= i <= |es| && OnlyPerforms(later) ==>
      StoppedAfterRoot(Run(env, es[..i] + later).done, provider)
  }

  // Nor is there a way to finish a run in which the root span has not ended.
  ghost predicate ExportsTheRoot(env: Env, es: seq<Event>, provider: nat) {
    && NeverStopsEarly(env, es, provider)
    && forall later :: OnlyPerforms(later) && Quiescent(Run(env, es + later)) ==>
         HasRootEnd(multiset(Run(env, es + later).done))
  }

  // What the call that stops the provider finds: an owner closing the boot, a timeline
  // that is connected and no end of the root in flight; anyone else, a root ended.
  ghost predicate StopIsClear(env: Env, pre: seq<Event>, e: Event, provider: nat) {
    var sys := Run(env, pre);
    match e
    case CloseEv(_, p) => p == provider ==> sys.state.exporter.Some? && !HasRootEnd(InFlight(sys.tasks))
    case StopEv(p) => p == provider ==> HasRootEnd(multiset(sys.done))
    case _ => true
  }

  ghost predicate StopsClear(env: Env, es: seq<Event>, provider: nat) {
    es != [] ==> StopsClear(env, Front(es), provider) && StopIsClear(env, Front(es), Last(es), provider)
  }

  // ---------------------------------------------------------------------------
  // Clear stops come after the root
  // ---------------------------------------------------------------------------

  // Unless the root has ended, whoever is to stop the provider ends the root first.
  ghost predicate StopsAreCovered(sys: System, provider: nat) {
    && StoppedAfterRoot(sys.done, provider)
    && (HasRootEnd(multiset(sys.done)) || forall task :: task in sys.tasks ==> IsCovered(task, provider))
  }

  predicate IsCovered(task: seq<Work>, provider: nat) {
    StopProvider(provider) in task ==> |task| == 2 && task[0].EndRoot? && task[1] == StopProvider(provider)
  }

  lemma StoppedAfterRootOfAppend(done: seq<Work>, w: Work, provider: nat)
    ensures StoppedAfterRoot(done + [w], provider) <==>
              StoppedAfterRoot(done, provider) && (w == StopProvider(provider) ==> HasRootEnd(multiset(done)))
  {
    var all := done + [w];
    assert all[..|done|] == done;
    assert forall i :: 0 <= i < |done| ==> all[..i] == done[..i];
    if StoppedAfterRoot(all, provider) {
      forall i | 0 <= i < |done| && done[i] == StopProvider(provider)
        ensures HasRootEnd(multiset(done[..i]))
      {
        assert all[i] == done[i];
      }
      assert all[|done|] == w;
    }
  }

  lemma PerformKeepsCover(sys: System, i: nat, provider: nat)
    requires i < |sys.tasks| && sys.tasks[i] != [] && StopsAreCovered(sys, provider)
    ensures StopsAreCovered(System(sys.state, sys.tasks[i := sys.tasks[i][1..]], sys.done + [sys.tasks[i][0]]), provider)
  {
    var task := sys.tasks[i];
    var w, tasks' := task[0], sys.tasks[i := task[1..]];
    assert task in sys.tasks && w in task;
    StoppedAfterRootOfAppend(sys.done, w, provider);
    if HasRootEnd(multiset(sys.done)) {
      RootEndStaysDone(sys.done, sys.done + [w]);
    } else if w.EndRoot? {
      assert w in multiset(sys.done + [w]);
    } else {
      assert StopProvider(provider) !in task;
      forall t | t in tasks'
        ensures IsCovered(t, provider)
      {
        assert t in sys.tasks || t == task[1..];
      }
    }
  }

  lemma LockedIsCovered(env: Env, es: seq<Event>, e: Event, provider: nat)
    requires StopIsClear(env, es, e, provider) && !HasRootEnd(multiset(Run(env, es).done))
    ensures IsCovered(Locked(env, Run(env, es).state, e).1, provider)
  {
    var sys := Run(env, es);
    match e {
      case CloseEv(now, p) =>
        ReachableState(env, es);
        RootEndIsDoneOrInFlight(env, es);
        if p == provider {
          CloseWork(env, sys.state, now, p);
        }
      case AttachEv(_, _) => assert StopProvider(provider) !in Locked(env, sys.state, e).1;
      case _ =>
    }
  }

  lemma {:induction false} ClearRunIsCovered(env: Env, es: seq<Event>, provider: nat)
    requires StopsClear(env, es, provider)
    ensures StopsAreCovered(Run(env, es), provider)
  {
    if es != [] {
      var pre, e := Front(es), Last(es);
      var sys := Run(env, pre);
      ClearRunIsCovered(env, pre, provider);
      if e.PerformEv? {
        if e.task < |sys.tasks| && sys.tasks[e.task] != [] {
          PerformKeepsCover(sys, e.task, provider);
        }
      } else if !HasRootEnd(multiset(sys.done)) {
        LockedIsCovered(env, pre, e, provider);
      }
    }
  }

  // ---------------------------------------------------------------------------
  // Any other stop can come too early
  // ---------------------------------------------------------------------------

  lemma UnclearStopWork(env: Env, pre: seq<Event>, e: Event, provider: nat)
    requires !StopIsClear(env, pre, e, provider)
    ensures Locked(env, Run(env, pre).state, e).1 == [StopProvider(provider)]
    ensures !HasRootEnd(multiset(Run(env, pre).done))
  {
    var sys := Run(env, pre);
    ReachableState(env, pre);
    RootEndIsDoneOrInFlight(env, pre);
    if e.CloseEv? && sys.state.exporter.Some? {
      var work := Locked(env, sys.state, e).1;
      CloseWork(env, sys.state, e.now, provider);
      assert work == Front(work) + [Last(work)];
    }
  }

  lemma UnclearStopComesEarly(env: Env, pre: seq<Event>, e: Event, provider: nat)
    requires !StopIsClear(env, pre, e, provider)
    ensures !StoppedAfterRoot(Run(env, pre + [e] + [PerformEv(|Run(env, pre).tasks|)]).done, provider)
  {
    var sys, stop := Run(env, pre), StopProvider(provider);
    UnclearStopWork(env, pre, e, provider);
    assert Front(pre + [e]) == pre;
    assert Run(env, pre + [e]).tasks == sys.tasks + [[stop]];
    ExtendPerform(env, pre + [e], |sys.tasks|, stop, []);
    StoppedAfterRootOfAppend(sys.done, stop, provider);
  }

  lemma {:induction false} ClearUnderPerforms(env: Env, es: seq<Event>, later: seq<Event>, provider: nat)
    requires StopsClear(env, es, provider) && OnlyPerforms(later)
    ensures StopsClear(env, es + later, provider)
  {
    if later == [] {
      assert es + later == es;
    } else {
      ClearUnderPerforms(env, es, Front(later), provider);
      assert Last(later) in later;
      assert Front(es + later) == es + Front(later);
    }
  }

  lemma {:induction false} ClearPrefix(env: Env, es: seq<Event>, i: nat, provider: nat)
    requires StopsClear(env, es, provider) && i <= |es|
    ensures StopsClear(env, es[..i], provider)
  {
    if i == |es| {
      assert es[..i] == es;
    } else {
      ClearPrefix(env, Front(es), i, provider);
      assert Front(es)[..i] == es[..i];
    }
  }

  lemma {:induction false} UnclearRunStopsEarly(env: Env, es: seq<Event>, provider: nat)
    returns (i: nat, later: seq<Event>)
    requires !StopsClear(env, es, provider)
    ensures i <= |es| && OnlyPerforms(later) && !StoppedAfterRoot(Run(env, es[..i] + later).done, provider)
  {
    if StopsClear(env, Front(es), provider) {
      i, later := |es|, [PerformEv(|Run(env, Front(es)).tasks|)];
      UnclearStopComesEarly(env, Front(es), Last(es), provider);
      assert es[..i] == Front(es) + [Last(es)];
    } else {
      i, later := UnclearRunStopsEarly(env, Front(es), provider);
      assert Front(es)[..i] == es[..i];
    }
  }

  // Over every run and every schedule of the work left at any point of it, the root
  // span has ended whenever its provider is stopped if and only if every call that is
  // to stop the provider finds no end of the root in flight, or is no owner's and
  // finds the root ended.
  lemma StopsFollowTheRoot(env: Env, es: seq<Event>, provider: nat)
    ensures NeverStopsEarly(env, es, provider) <==> StopsClear(env, es, provider)
  {
    if StopsClear(env, es, provider) {
      forall i, later | 0 <= i <= |es| && OnlyPerforms(later)
        ensures StoppedAfterRoot(Run(env, es[..i] + later).done, provider)
      {
        ClearPrefix(env, es, i, provider);
        ClearUnderPerforms(env, es[..i], later, provider);
        ClearRunIsCovered(env, es[..i] + later, provider);
      }
    } else {
      var i, later := UnclearRunStopsEarly(env, es, provider);
    }
  }

  // ---------------------------------------------------------------------------
  // Finishing a run
  // ---------------------------------------------------------------------------

  lemma {:induction false} PerformsKeepState(env: Env, es: seq<Event>, later: seq<Event>)
    requires OnlyPerforms(later)
    ensures Run(env, es + later).state == Run(env, es).state
  {
    if later == [] {
      assert es + later == es;
    } else {
      PerformsKeepState(env, es, Front(later));
      assert Last(later) in later;
      assert Front(es + later) == es + Front(later);
    }
  }

  lemma PerformsKeepRootDue(env: Env, es: seq<Event>, later: seq<Event>)
    requires OnlyPerforms(later)
    ensures RootDue(es + later) <==> RootDue(es)
  {
    PerformsKeepState(env, es, later);
    ReachableState(env, es);
    ReachableState(env, es + later);
  }

  function ItemsLeft(tasks: seq<seq<Work>>): nat {
    if tasks == [] then 0 else ItemsLeft(Front(tasks)) + |Last(tasks)|
  }

  lemma {:induction false} FewerItemsLeft(tasks: seq<seq<Work>>, i: nat)
    requires i < |tasks| && tasks[i] != []
    ensures ItemsLeft(tasks[i := tasks[i][1..]]) == ItemsLeft(tasks) - 1
  {
    var tasks' := tasks[i := tasks[i][1..]];
    if i == |tasks| - 1 {
      assert Front(tasks') == Front(tasks);
    } else {
      FewerItemsLeft(Front(tasks), i);
      assert Front(tasks') == Front(tasks)[i := tasks[i][1..]];
    }
  }

  // Every run can be finished by performing the work that is left.
  lemma {:induction false} RunCanFinish(env: Env, es: seq<Event>) returns (later: seq<Event>)
    ensures OnlyPerforms(later) && Quiescent(Run(env, es + later))
    decreases ItemsLeft(Run(env, es).tasks)
  {
    var sys := Run(env, es);
    if Quiescent(sys) {
      later := [];
      assert es + later == es;
    } else {
      var i :| 0 <= i < |sys.tasks| && sys.tasks[i] != [];
      FewerItemsLeft(sys.tasks, i);
      assert Front(es + [PerformEv(i)]) == es;
      var rest := RunCanFinish(env, es + [PerformEv(i)]);
      later := [PerformEv(i)] + rest;
      assert es + [PerformEv(i)] + rest == es + later;
    }
  }

  lemma FinishedRunEndsRoot(env: Env, es: seq<Event>, later: seq<Event>)
    requires OnlyPerforms(later) && Quiescent(Run(env, es + later))
    ensures HasRootEnd(multiset(Run(env, es + later).done)) <==> RootDue(es)
  {
    PerformsKeepRootDue(env, es, later);
    NothingInFlight(Run(env, es + later).tasks);
    RootEndIsDoneOrInFlight(env, es + later);
  }

  // Over every run, the root span is exported, whatever the schedule, if and only if
  // it is due and every stop of its provider is clear.
  lemma RootIsExportedExactly(env: Env, es: seq<Event>, provider: nat)
    ensures ExportsTheRoot(env, es, provider) <==> RootDue(es) && StopsClear(env, es, provider)
  {
    StopsFollowTheRoot(env, es, provider);
    if RootDue(es) {
      forall later | OnlyPerforms(later) && Quiescent(Run(env, es + later))
        ensures HasRootEnd(multiset(Run(env, es + later).done))
      {
        FinishedRunEndsRoot(env, es, later);
      }
    } else {
      var later := RunCanFinish(env, es);
      FinishedRunEndsRoot(env, es, later);
    }
  }

  // ---------------------------------------------------------------------------
  // The handles of a process
  // ---------------------------------------------------------------------------

  // Every initialisation builds a provider of its own.
  ghost predicate HaveOwnProviders(p: Process) {
    forall i, j :: 0 <= i < j < |p.handles| ==> p.handles[i].provider != p.handles[j].provider
  }

  // What a call that stops the owner's provider finds: a shutdown of the owner, no end
  // of the root in flight; the application stopping it directly, a root ended.
  ghost predicate ActIsClear(env: Env, pre: seq<Action>, a: Action, owner: nat, provider: nat) {
    var p := Live(env, pre);
    var sys := Run(env, p.es);
    match a
    case Shutdown(h, _) => h == owner && owner < |p.handles| ==> !HasRootEnd(InFlight(sys.tasks))
    case Application(e) => e == StopEv(provider) ==> HasRootEnd(multiset(sys.done))
    case Init(_, _) => true
  }

  ghost predicate ActsClear(env: Env, acts: seq<Action>, owner: nat, provider: nat) {
    acts != [] ==>
      ActsClear(env, Front(acts), owner, provider) && ActIsClear(env, Front(acts), Last(acts), owner, provider)
  }

  // Handle `owner`, once it is made, is the one of `provider`, and owns the timeline.
  ghost predicate IsSoleOwner(p: Process, owner: nat, provider: nat) {
    && (owner < |p.handles| ==> p.handles[owner] == Handle(provider, true))
    && forall i :: 0 <= i < |p.handles| && p.handles[i].provider == provider ==> i == owner
  }

  lemma ActClearIsStopClear(env: Env, pre: seq<Action>, a: Action, owner: nat, provider: nat)
    requires IsSoleOwner(Live(env, pre), owner, provider)
    ensures var p := Live(env, pre);
            var p' := Act(env, p, a);
            ActIsClear(env, pre, a, owner, provider)
            <==> p'.es == p.es || StopIsClear(env, p.es, Last(p'.es), provider)
  {
    var p := Live(env, pre);
    if a.Shutdown? && a.handle < |p.handles| && a.handle == owner {
      AtMostOneOwner(env, pre);
      ReachableState(env, p.es);
    }
  }

  lemma {:induction false} ActsClearIsStopsClear(env: Env, acts: seq<Action>, owner: nat, provider: nat)
    requires IsSoleOwner(Live(env, acts), owner, provider)
    ensures ActsClear(env, acts, owner, provider) <==> StopsClear(env, Live(env, acts).es, provider)
  {
    if acts != [] {
      var p, p' := Live(env, Front(acts)), Live(env, acts);
      assert p.handles <= p'.handles;
      assert IsSoleOwner(p, owner, provider);
      ActsClearIsStopsClear(env, Front(acts), owner, provider);
      ActClearIsStopClear(env, Front(acts), Last(acts), owner, provider);
      if p'.es != p.es {
        assert p'.es == p.es + [Last(p'.es)];
        assert Front(p'.es) == p.es;
      }
    }
  }

  // Across any sequence of inits, shutdowns, drops and calls of the application, and
  // every schedule, the root span has ended whenever the owner's provider is stopped if
  // and only if every shutdown of the owner, an overlapping one included, finds no end
  // of the root in flight and the application does not stop the provider itself before
  // the root has ended.
  lemma OwnerStopsFollowTheRoot(env: Env, acts: seq<Action>, h: nat)
    requires IsOwner(Live(env, acts), h) && HaveOwnProviders(Live(env, acts))
    ensures var provider := Live(env, acts).handles[h].provider;
            NeverStopsEarly(env, Live(env, acts).es, provider) <==> ActsClear(env, acts, h, provider)
  {
    var provider := Live(env, acts).handles[h].provider;
    ActsClearIsStopsClear(env, acts, h, provider);
    StopsFollowTheRoot(env, Live(env, acts).es, provider);
  }

  // Over every run in which the boot never reached ready and every handle was shut
  // down, the root span is exported, whatever the schedule, if and only if an
  // initialisation, not the application, connected the timeline first, and every stop
  // of the provider it exports to was clear.
  lemma AllShutDownExportsTheRoot(env: Env, acts: seq<Action>, provider: nat)
    requires FirstReady(Live(env, acts).es).None?
    requires forall h :: 0 <= h < |Live(env, acts).handles| ==> ShutDown(env, acts, h)
    ensures var es := Live(env, acts).es;
            ExportsTheRoot(env, es, provider) <==> ConnectedByInit(env, acts) && StopsClear(env, es, provider)
  {
    var es := Live(env, acts).es;
    AllShutDownEndsTheRoot(env, acts);
    IssuedRootEnds(env, es);
    RootIsExportedExactly(env, es, provider);
  }

  // The same, in terms of the calls, whether or not the boot reached ready: once the
  // owner was shut down, the root is exported exactly when no shutdown of the owner met
  // an end of the root in flight and the application did not stop the provider first.
  lemma OwnerShutDownExportsTheRoot(env: Env, acts: seq<Action>, h: nat)
    requires IsOwner(Live(env, acts), h) && HaveOwnProviders(Live(env, acts)) && ShutDown(env, acts, h)
    ensures var provider := Live(env, acts).handles[h].provider;
            ExportsTheRoot(env, Live(env, acts).es, provider) <==> ActsClear(env, acts, h, provider)
  {
    var es, provider := Live(env, acts).es, Live(env, acts).handles[h].provider;
    ShutDownOfOwner(env, acts, h);
    RootEndsWhenReadyOrOwnerShutDown(env, acts);
    AtMostOneOwner(env, acts);
    IssuedRootEnds(env, es);
    RootIsExportedExactly(env, es, provider);
    ActsClearIsStopsClear(env, acts, h, provider);
  }
}
