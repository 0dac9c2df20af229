/**
 The boot timeline as a transition system. Every operation runs one atomic section
 under the lock, which changes the state and decides what is left to do; the caller
 performs that work after unlocking, one item at a time, while other operations run.
 */
module BootTimeline {
  import opened BootClock
  import opened Options
  import opened Sequences

  const MAX_PHASES: nat := 256

  datatype Outcome = Ok | Failed

  datatype Phase = Phase(name: string, outcome: Outcome, start: int, end: int, took: nat, at: nat)

  datatype Recorded = Recorded(phase: Phase, exported: bool)

  // A tracer of `provider` together with the root span it opened at `rootStart`.
  datatype Exporter = Exporter(provider: nat, rootStart: int)

  datatype ReadyMark = ReadyMark(wall: int, at: nat)

  datatype State = State(
    service: Option<string>,
    phases: seq<Recorded>,
    dropped: nat,
    ready: Option<ReadyMark>,
    exporter: Option<Exporter>,
    rootEnded: bool
  )

  datatype Line =
    | PhaseLine(phase: Phase, service: string)
    | ReadyLine(at: nat, source: Origin, service: string)

  datatype RootOutcome = Ready | Incomplete

  datatype Work =
    | WriteLine(line: Line)
    | ExportSpan(exporter: Exporter, phase: Phase)
    | EndRoot(exporter: Exporter, end: int, outcome: RootOutcome, count: nat, dropped: nat)
    | StopProvider(provider: nat)

  // What an operation needs besides the state: the clock and the derived service name.
  datatype Env = Env(clock: Clock, defaultService: string)

  const EMPTY: State := State(None, [], 0, None, None, false)

  // ---------------------------------------------------------------------------
  // The locked sections
  // ---------------------------------------------------------------------------

  function MakePhase(clock: Clock, name: string, outcome: Outcome, start: int, end: int): Phase {
    Phase(name, outcome, Wall(clock, start), Wall(clock, end),
          SaturatingSince(end, start), SaturatingSince(end, clock.origin))
  }

  function ServiceLabel(env: Env, s: State): string {
    if s.service.Some? then s.service.value else env.defaultService
  }

  datatype Taken = Taken(exporter: Exporter, count: nat, dropped: nat)

  function TakeRootToEnd(s: State): (State, Option<Taken>) {
    if s.rootEnded || s.exporter.None? then (s, None)
    else (s.(rootEnded := true), Some(Taken(s.exporter.value, |s.phases|, s.dropped)))
  }

  function EndRootWork(taken: Option<Taken>, wall: int, outcome: RootOutcome): seq<Work> {
    if taken.None? then []
    else [EndRoot(taken.value.exporter, wall, outcome, taken.value.count, taken.value.dropped)]
  }

  function RecordStep(env: Env, s: State, phase: Phase): (State, seq<Work>) {
    var s' := if |s.phases| < MAX_PHASES
              then s.(phases := s.phases + [Recorded(phase, s.exporter.Some?)])
              else s.(dropped := s.dropped + 1);
    (s', [WriteLine(PhaseLine(phase, ServiceLabel(env, s)))] +
         if s.exporter.Some? then [ExportSpan(s.exporter.value, phase)] else [])
  }

  function ReadyStep(env: Env, s: State, end: int): (State, seq<Work>) {
    if s.ready.Some? then (s, [])
    else
      var mark := ReadyMark(Wall(env.clock, end), SaturatingSince(end, env.clock.origin));
      var (s', taken) := TakeRootToEnd(s.(ready := Some(mark)));
      (s', [WriteLine(ReadyLine(mark.at, env.clock.source, ServiceLabel(env, s)))] +
           EndRootWork(taken, mark.wall, Ready))
  }

  // The phases not exported yet, in completion order.
  function Pending(recorded: seq<Recorded>): seq<Phase> {
    if recorded == [] then []
    else
      var last := recorded[|recorded| - 1];
      Pending(recorded[..|recorded| - 1]) + if last.exported then [] else [last.phase]
  }

  function AllExported(recorded: seq<Recorded>): seq<Recorded> {
    seq(|recorded|, i requires 0 <= i < |recorded| => recorded[i].(exported := true))
  }

  function ExportAll(exporter: Exporter, phases: seq<Phase>): (work: seq<Work>)
    ensures |work| == |phases|
  {
    seq(|phases|, i requires 0 <= i < |phases| => ExportSpan(exporter, phases[i]))
  }

  function AttachStep(env: Env, s: State, provider: nat, service: string): (State, seq<Work>) {
    if s.exporter.Some? then (s, [])
    else
      var exporter := Exporter(provider, env.clock.originWall);
      var attached := s.(service := if s.service.None? then Some(service) else s.service,
                         exporter := Some(exporter),
                         phases := AllExported(s.phases));
      var exports := ExportAll(exporter, Pending(s.phases));
      if s.ready.None? then (attached, exports)
      else
        var (s', taken) := TakeRootToEnd(attached);
        (s', exports + EndRootWork(taken, s.ready.value.wall, Ready))
  }

  function CloseStep(env: Env, s: State, now: int): (State, seq<Work>) {
    var (s', taken) := TakeRootToEnd(s);
    (s', EndRootWork(taken, Wall(env.clock, now), Incomplete))
  }

  // ---------------------------------------------------------------------------
  // Runs
  // ---------------------------------------------------------------------------

  datatype Event =
    | RecordEv(name: string, outcome: Outcome, start: int, end: int)
    | ReadyEv(end: int)
    | AttachEv(provider: nat, service: string)
    | ServiceEv(service: string)
    // An owner of the timeline closes the boot, then stops its provider.
    | CloseEv(now: int, provider: nat)
    // Anyone else only stops its provider.
    | StopEv(provider: nat)
    // The caller of an earlier operation performs its next item of work.
    | PerformEv(task: nat)

  // The work each operation has left to do, and all work done so far, in order.
  datatype System = System(state: State, tasks: seq<seq<Work>>, done: seq<Work>)

  function Locked(env: Env, s: State, e: Event): (State, seq<Work>) {
    match e
    case RecordEv(name, outcome, start, end) => RecordStep(env, s, MakePhase(env.clock, name, outcome, start, end))
    case ReadyEv(end) => ReadyStep(env, s, end)
    case AttachEv(provider, service) => AttachStep(env, s, provider, service)
    case ServiceEv(service) => (s.(service := Some(service)), [])
    case CloseEv(now, provider) =>
      var (s', work) := CloseStep(env, s, now);
      (s', work + [StopProvider(provider)])
    case StopEv(provider) => (s, [StopProvider(provider)])
    case PerformEv(_) => (s, [])
  }

  function Step(env: Env, sys: System, e: Event): System {
    if e.PerformEv? then
      var i := e.task;
      if i < |sys.tasks| && sys.tasks[i] != []
      then System(sys.state, sys.tasks[i := sys.tasks[i][1..]], sys.done + [sys.tasks[i][0]])
      else sys
    else
      var (s', work) := Locked(env, sys.state, e);
      System(s', sys.tasks + [work], sys.done)
  }

  // Every interleaving of locked sections and work is one sequence of events.
  function Run(env: Env, es: seq<Event>): System {
    if es == [] then System(EMPTY, [], []) else Step(env, Run(env, Front(es)), Last(es))
  }

  // All work the locked sections of a run have handed out, in lock order.
  function Issued(env: Env, es: seq<Event>): seq<Work> {
    if es == [] then []
    else Issued(env, Front(es)) + Locked(env, Run(env, Front(es)).state, Last(es)).1
  }

  function InFlight(tasks: seq<seq<Work>>): multiset<Work> {
    if tasks == [] then multiset{} else InFlight(Front(tasks)) + multiset(Last(tasks))
  }

  // Every operation has returned.
  ghost predicate Quiescent(sys: System) {
    forall i :: 0 <= i < |sys.tasks| ==> sys.tasks[i] == []
  }

  // ---------------------------------------------------------------------------
  // Conservation of work
  // ---------------------------------------------------------------------------

  lemma {:induction false} PerformedWorkLeavesFlight(tasks: seq<seq<Work>>, i: nat)
    requires i < |tasks| && tasks[i] != []
    ensures InFlight(tasks) == InFlight(tasks[i := tasks[i][1..]]) + multiset{tasks[i][0]}
  {
    var tasks' := tasks[i := tasks[i][1..]];
    if i == |tasks| - 1 {
      assert Front(tasks') == Front(tasks);
      FirstLeavesRest(tasks[i]);
    } else {
      PerformedWorkLeavesFlight(Front(tasks), i);
      assert Front(tasks') == Front(tasks)[i := tasks[i][1..]];
      assert Last(tasks') == Last(tasks);
      SumKeepsExtra(InFlight(Front(tasks)), InFlight(Front(tasks')), multiset(Last(tasks)), multiset{tasks[i][0]});
    }
  }

  lemma SumKeepsExtra(whole: multiset<Work>, part: multiset<Work>, other: multiset<Work>, extra: multiset<Work>)
    requires whole == part + extra
    ensures whole + other == part + other + extra
  {
  }

  lemma FirstLeavesRest(work: seq<Work>)
    requires work != []
    ensures multiset(work) == multiset(work[1..]) + multiset{work[0]}
  {
    assert work == [work[0]] + work[1..];
  }

  lemma NewTaskJoinsFlight(tasks: seq<seq<Work>>, work: seq<Work>)
    ensures InFlight(tasks + [work]) == InFlight(tasks) + multiset(work)
  {
    assert Front(tasks + [work]) == tasks;
  }

  lemma PerformConservesWork(sys: System, i: nat)
    requires i < |sys.tasks| && sys.tasks[i] != []
    ensures multiset(sys.done + [sys.tasks[i][0]]) + InFlight(sys.tasks[i := sys.tasks[i][1..]])
         == multiset(sys.done) + InFlight(sys.tasks)
  {
    var w := sys.tasks[i][0];
    PerformedWorkLeavesFlight(sys.tasks, i);
    assert multiset(sys.done + [w]) == multiset(sys.done) + multiset{w};
  }

  lemma StepConservesWork(env: Env, sys: System, e: Event, work: seq<Work>)
    requires work == Locked(env, sys.state, e).1
    ensures var sys' := Step(env, sys, e);
            multiset(sys'.done) + InFlight(sys'.tasks) == multiset(sys.done) + InFlight(sys.tasks) + multiset(work)
  {
    if e.PerformEv? {
      if e.task < |sys.tasks| && sys.tasks[e.task] != [] {
        PerformConservesWork(sys, e.task);
      }
    } else {
      assert Step(env, sys, e).tasks == sys.tasks + [work];
      NewTaskJoinsFlight(sys.tasks, work);
    }
  }

  // Over every interleaving, the work done and the work in flight are together
  // exactly the work handed out: nothing is lost, repeated or made up.
  lemma {:induction false} WorkIsConserved(env: Env, es: seq<Event>)
    ensures var sys := Run(env, es);
            multiset(sys.done) + InFlight(sys.tasks) == multiset(Issued(env, es))
  {
    if es != [] {
      WorkIsConserved(env, Front(es));
      var before := Run(env, Front(es));
      StepConservesWork(env, before, Last(es), Locked(env, before.state, Last(es)).1);
    }
  }

  lemma {:induction false} NothingInFlight(tasks: seq<seq<Work>>)
    requires forall i :: 0 <= i < |tasks| ==> tasks[i] == []
    ensures InFlight(tasks) == multiset{}
  {
    if tasks != [] {
      NothingInFlight(Front(tasks));
    }
  }

  // ---------------------------------------------------------------------------
  // Reading a run: what happened, told from the events alone
  // ---------------------------------------------------------------------------

  // The phases recorded, in lock order.
  function Records(env: Env, es: seq<Event>): seq<Phase> {
    if es == [] then []
    else
      var e := Last(es);
      Records(env, Front(es)) +
      if e.RecordEv? then [MakePhase(env.clock, e.name, e.outcome, e.start, e.end)] else []
  }

  // What recording `e` tells of its phase: the name and outcome it was given, its
  // wall times clamped to the origin, how long it took, and when it ended.
  predicate IsPhaseOf(clock: Clock, e: Event, phase: Phase) {
    && e.RecordEv?
    && phase.name == e.name && phase.outcome == e.outcome
    && phase.start == clock.originWall + (if e.start >= clock.origin then e.start - clock.origin else 0)
    && phase.end == clock.originWall + (if e.end >= clock.origin then e.end - clock.origin else 0)
    && phase.took == (if e.end >= e.start then e.end - e.start else 0)
    && phase.at == (if e.end >= clock.origin then e.end - clock.origin else 0)
  }

  function RecordEvents(es: seq<Event>): (records: seq<Event>)
    ensures forall e :: e in records ==> e in es && e.RecordEv?
  {
    if es == [] then [] else RecordEvents(Front(es)) + if Last(es).RecordEv? then [Last(es)] else []
  }

  // The phases recorded are those of the record events, one for one and in lock order.
  lemma {:induction false} RecordsTellTheEvents(env: Env, es: seq<Event>)
    ensures |Records(env, es)| == |RecordEvents(es)|
    ensures forall i :: 0 <= i < |Records(env, es)| ==> IsPhaseOf(env.clock, RecordEvents(es)[i], Records(env, es)[i])
  {
    if es != [] {
      RecordsTellTheEvents(env, Front(es));
    }
  }

  function FirstAttach(es: seq<Event>): (first: Option<nat>)
    ensures first.Some? ==> first.value < |es| && es[first.value].AttachEv?
    ensures forall j :: 0 <= j < |es| && (first.None? || j < first.value) ==> !es[j].AttachEv?
  {
    if es == [] then None
    else
      var earlier := FirstAttach(Front(es));
      if earlier.Some? then earlier else if Last(es).AttachEv? then Some(|es| - 1) else None
  }

  function FirstReady(es: seq<Event>): (first: Option<nat>)
    ensures first.Some? ==> first.value < |es| && es[first.value].ReadyEv?
    ensures forall j :: 0 <= j < |es| && (first.None? || j < first.value) ==> !es[j].ReadyEv?
  {
    if es == [] then None
    else
      var earlier := FirstReady(Front(es));
      if earlier.Some? then earlier else if Last(es).ReadyEv? then Some(|es| - 1) else None
  }

  function LastService(es: seq<Event>): (last: Option<nat>)
    ensures last.Some? ==> last.value < |es| && es[last.value].ServiceEv?
    ensures forall j :: 0 <= j < |es| && (last.None? || last.value < j) ==> !es[j].ServiceEv?
  {
    if es == [] then None
    else if Last(es).ServiceEv? then Some(|es| - 1)
    else LastService(Front(es))
  }

  // The name given last, else the one the first provider brought, else none.
  function ServiceOf(es: seq<Event>): Option<string> {
    var named, attach := LastService(es), FirstAttach(es);
    if named.Some? then Some(es[named.value].service)
    else if attach.Some? then Some(es[attach.value].service)
    else None
  }

  function ServiceLabelOf(env: Env, es: seq<Event>): string {
    var service := ServiceOf(es);
    if service.Some? then service.value else env.defaultService
  }

  function ExporterOf(env: Env, es: seq<Event>): Option<Exporter> {
    var attach := FirstAttach(es);
    if attach.Some? then Some(Exporter(es[attach.value].provider, env.clock.originWall)) else None
  }

  function ReadyOf(env: Env, es: seq<Event>): Option<ReadyMark> {
    var ready := FirstReady(es);
    if ready.Some?
    then Some(ReadyMark(Wall(env.clock, es[ready.value].end), SaturatingSince(es[ready.value].end, env.clock.origin)))
    else None
  }

  ghost predicate ClosedAfterAttach(es: seq<Event>) {
    var attach := FirstAttach(es);
    attach.Some? && exists j :: attach.value < j < |es| && es[j].CloseEv?
  }

  // The root span has an end: there is a provider to end it on, and the boot
  // reached ready or was closed once that provider was there.
  ghost predicate RootDue(es: seq<Event>) {
    FirstAttach(es).Some? && (FirstReady(es).Some? || ClosedAfterAttach(es))
  }

  // ---------------------------------------------------------------------------
  // The state of every reachable system
  // ---------------------------------------------------------------------------

  function PhasesOf(recorded: seq<Recorded>): (phases: seq<Phase>)
    ensures |phases| == |recorded|
  {
    seq(|recorded|, i requires 0 <= i < |recorded| => recorded[i].phase)
  }

  // The state, told from the events alone.
  ghost predicate StateMatches(env: Env, es: seq<Event>, s: State) {
    var records := Records(env, es);
    && PhasesOf(s.phases) == Take(MAX_PHASES, records)
    && |s.phases| + s.dropped == |records|
    && (forall r :: r in s.phases ==> r.exported == FirstAttach(es).Some?)
    && s.exporter == ExporterOf(env, es)
    && s.ready == ReadyOf(env, es)
    && s.service == ServiceOf(es)
    && (s.rootEnded <==> RootDue(es))
  }

  lemma RootDueStep(es: seq<Event>)
    requires es != []
    ensures RootDue(es) <==>
              || RootDue(Front(es))
              || (FirstAttach(es).Some? && FirstReady(es).Some?)
              || (FirstAttach(Front(es)).Some? && Last(es).CloseEv?)
  {
    var pre := Front(es);
    if ClosedAfterAttach(es) && !Last(es).CloseEv? {
      var j :| FirstAttach(es).value < j < |es| && es[j].CloseEv?;
      assert pre[j] == es[j];
    }
    if ClosedAfterAttach(pre) {
      var j :| FirstAttach(pre).value < j < |pre| && pre[j].CloseEv?;
      assert es[j] == pre[j];
    }
    if FirstAttach(pre).Some? && Last(es).CloseEv? {
      assert es[|es| - 1].CloseEv?;
    }
  }

  lemma RecordKeepsState(env: Env, es: seq<Event>, s: State)
    requires es != [] && Last(es).RecordEv? && StateMatches(env, Front(es), s)
    ensures StateMatches(env, es, Locked(env, s, Last(es)).0)
  {
    RootDueStep(es);
    var e := Last(es);
    var phase := MakePhase(env.clock, e.name, e.outcome, e.start, e.end);
    assert Records(env, es) == Records(env, Front(es)) + [phase];
    if |s.phases| < MAX_PHASES {
      assert PhasesOf(s.phases + [Recorded(phase, s.exporter.Some?)]) == PhasesOf(s.phases) + [phase];
    }
  }

  lemma AttachKeepsState(env: Env, es: seq<Event>, s: State)
    requires es != [] && Last(es).AttachEv? && StateMatches(env, Front(es), s)
    ensures StateMatches(env, es, Locked(env, s, Last(es)).0)
  {
    RootDueStep(es);
    if s.exporter.None? {
      assert PhasesOf(AllExported(s.phases)) == PhasesOf(s.phases);
    }
  }

  lemma ReadyKeepsState(env: Env, es: seq<Event>, s: State)
    requires es != [] && Last(es).ReadyEv? && StateMatches(env, Front(es), s)
    ensures StateMatches(env, es, Locked(env, s, Last(es)).0)
  {
    RootDueStep(es);
  }

  lemma CloseKeepsState(env: Env, es: seq<Event>, s: State)
    requires es != [] && Last(es).CloseEv? && StateMatches(env, Front(es), s)
    ensures StateMatches(env, es, Locked(env, s, Last(es)).0)
  {
    RootDueStep(es);
  }

  lemma OtherEventKeepsState(env: Env, es: seq<Event>, s: State)
    requires es != [] && (Last(es).ServiceEv? || Last(es).StopEv? || Last(es).PerformEv?)
    requires StateMatches(env, Front(es), s)
    ensures StateMatches(env, es, Locked(env, s, Last(es)).0)
  {
    RootDueStep(es);
  }

  // Whatever the interleaving, the buffer holds the first 256 phases recorded,
  // the drop count makes up the rest, every buffered phase counts as exported
  // exactly when there is an exporter, and the root has been taken exactly
  // when it is due.
  lemma {:induction false} ReachableState(env: Env, es: seq<Event>)
    ensures StateMatches(env, es, Run(env, es).state)
  {
    if es != [] {
      ReachableState(env, Front(es));
      var s := Run(env, Front(es)).state;
      if Last(es).RecordEv? {
        RecordKeepsState(env, es, s);
      } else if Last(es).AttachEv? {
        AttachKeepsState(env, es, s);
      } else if Last(es).ReadyEv? {
        ReadyKeepsState(env, es, s);
      } else if Last(es).CloseEv? {
        CloseKeepsState(env, es, s);
      } else {
        OtherEventKeepsState(env, es, s);
      }
    }
  }

  // In numbers: never more than 256 phases are buffered, all of them up to then.
  lemma BufferHolds256(env: Env, es: seq<Event>)
    ensures var s, recorded := Run(env, es).state, |RecordEvents(es)|;
            && |s.phases| == (if recorded <= 256 then recorded else 256)
            && s.dropped == (if recorded <= 256 then 0 else recorded - 256)
            && forall i :: 0 <= i < |s.phases| ==> IsPhaseOf(env.clock, RecordEvents(es)[i], s.phases[i].phase)
  {
    ReachableState(env, es);
    RecordsTellTheEvents(env, es);
    var phases := Run(env, es).state.phases;
    assert forall i :: 0 <= i < |phases| ==> phases[i].phase == PhasesOf(phases)[i];
  }
}
