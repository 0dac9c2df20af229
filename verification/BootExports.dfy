/**
 What a boot timeline exports and writes over any run: every phase once, one end
 of the root span, and every line, told from the events of the run alone.
 */
module BootExports {
  import opened BootClock
  import opened BootTimeline
  import opened Options
  import opened Sequences

  predicate IsExport(w: Work) { w.ExportSpan? }

  predicate IsRootEnd(w: Work) { w.EndRoot? }

  function Only(work: seq<Work>, kind: Work -> bool): seq<Work> {
    if work == [] then []
    else Only(Front(work), kind) + if kind(Last(work)) then [Last(work)] else []
  }

  lemma {:induction false} OnlyOfConcat(a: seq<Work>, b: seq<Work>, kind: Work -> bool)
    ensures Only(a + b, kind) == Only(a, kind) + Only(b, kind)
  {
    if b == [] {
      assert a + b == a;
    } else {
      assert Front(a + b) == a + Front(b) && Last(a + b) == Last(b);
      OnlyOfConcat(a, Front(b), kind);
    }
  }

  lemma {:induction false} OnlyKeepsCounts(work: seq<Work>, kind: Work -> bool, w: Work)
    ensures multiset(Only(work, kind))[w] == if kind(w) then multiset(work)[w] else 0
  {
    if work != [] {
      OnlyKeepsCounts(Front(work), kind, w);
      assert work == Front(work) + [Last(work)];
    }
  }

  lemma {:induction false} OnlyAll(work: seq<Work>, kind: Work -> bool)
    requires forall w :: w in work ==> kind(w)
    ensures Only(work, kind) == work
  {
    if work != [] {
      var init, last := Front(work), Last(work);
      assert work == init + [last];
      assert forall w :: w in init ==> w in work;
      OnlyAll(init, kind);
    }
  }

  lemma {:induction false} OnlyNone(work: seq<Work>, kind: Work -> bool)
    requires forall w :: w in work ==> !kind(w)
    ensures Only(work, kind) == []
  {
    if work != [] {
      OnlyNone(Front(work), kind);
    }
  }

  lemma {:induction false} ExportCounts(exporter: Exporter, phases: seq<Phase>, phase: Phase)
    ensures multiset(ExportAll(exporter, phases))[ExportSpan(exporter, phase)] == multiset(phases)[phase]
  {
    if phases != [] {
      ExportCounts(exporter, Front(phases), phase);
      var work := ExportAll(exporter, phases);
      assert work == ExportAll(exporter, Front(phases)) + [ExportSpan(exporter, Last(phases))];
      assert phases == Front(phases) + [Last(phases)];
    }
  }

  // ---------------------------------------------------------------------------
  // Every phase is exported once
  // ---------------------------------------------------------------------------

  // What a run owes its provider: the first 256 phases recorded before the first
  // attach, and every phase recorded after it.
  function Owed(env: Env, es: seq<Event>): seq<Phase> {
    var attach := FirstAttach(es);
    if attach.None? then []
    else Take(MAX_PHASES, Records(env, es[..attach.value])) + Records(env, es[attach.value + 1..])
  }

  function OwedWork(env: Env, es: seq<Event>): seq<Work> {
    var exporter := ExporterOf(env, es);
    if exporter.None? then [] else ExportAll(exporter.value, Owed(env, es))
  }

  lemma {:induction false} PendingIsAll(recorded: seq<Recorded>)
    requires forall r :: r in recorded ==> !r.exported
    ensures Pending(recorded) == PhasesOf(recorded)
  {
    if recorded != [] {
      PendingIsAll(Front(recorded));
      assert PhasesOf(recorded) == PhasesOf(Front(recorded)) + [Last(recorded).phase];
    }
  }

  lemma OwedAfterAttach(env: Env, es: seq<Event>)
    requires es != [] && FirstAttach(Front(es)).Some?
    ensures Owed(env, es) == Owed(env, Front(es)) +
            if Last(es).RecordEv?
            then [MakePhase(env.clock, Last(es).name, Last(es).outcome, Last(es).start, Last(es).end)] else []
  {
    var a := FirstAttach(Front(es)).value;
    assert es[..a] == Front(es)[..a];
    assert Front(es[a + 1..]) == Front(es)[a + 1..];
  }

  lemma OwedAtAttach(env: Env, es: seq<Event>)
    requires es != [] && FirstAttach(Front(es)).None? && Last(es).AttachEv?
    ensures Owed(env, es) == Take(MAX_PHASES, Records(env, Front(es)))
  {
    assert es[..|es| - 1] == Front(es) && es[|es|..] == [];
  }

  lemma ExportsOfAttach(env: Env, s: State, provider: nat, service: string)
    requires s.exporter.None? && forall r :: r in s.phases ==> !r.exported
    ensures Only(AttachStep(env, s, provider, service).1, IsExport)
         == ExportAll(Exporter(provider, env.clock.originWall), PhasesOf(s.phases))
  {
    PendingIsAll(s.phases);
    var exports := ExportAll(Exporter(provider, env.clock.originWall), PhasesOf(s.phases));
    var work := AttachStep(env, s, provider, service).1;
    var rest := work[|exports|..];
    assert work == exports + rest;
    OnlyOfConcat(exports, rest, IsExport);
    OnlyAll(exports, IsExport);
    OnlyNone(rest, IsExport);
  }

  lemma ExportsOfRecord(env: Env, s: State, phase: Phase)
    ensures Only(RecordStep(env, s, phase).1, IsExport)
         == if s.exporter.Some? then [ExportSpan(s.exporter.value, phase)] else []
  {
    var work := RecordStep(env, s, phase).1;
    OnlyOfConcat(work[..1], work[1..], IsExport);
    OnlyNone(work[..1], IsExport);
    OnlyAll(work[1..], IsExport);
    assert work == work[..1] + work[1..];
  }

  lemma ExportsOfRecordStep(env: Env, es: seq<Event>, s: State)
    requires es != [] && Last(es).RecordEv? && StateMatches(env, Front(es), s)
    ensures OwedWork(env, es) == OwedWork(env, Front(es)) + Only(Locked(env, s, Last(es)).1, IsExport)
  {
    var e := Last(es);
    var phase := MakePhase(env.clock, e.name, e.outcome, e.start, e.end);
    ExportsOfRecord(env, s, phase);
    if s.exporter.Some? {
      OwedAfterAttach(env, es);
      assert ExportAll(s.exporter.value, Owed(env, Front(es)) + [phase])
          == ExportAll(s.exporter.value, Owed(env, Front(es))) + [ExportSpan(s.exporter.value, phase)];
    }
  }

  lemma ExportsOfAttachStep(env: Env, es: seq<Event>, s: State)
    requires es != [] && Last(es).AttachEv? && StateMatches(env, Front(es), s)
    ensures OwedWork(env, es) == OwedWork(env, Front(es)) + Only(Locked(env, s, Last(es)).1, IsExport)
  {
    if s.exporter.None? {
      OwedAtAttach(env, es);
      ExportsOfAttach(env, s, Last(es).provider, Last(es).service);
    } else {
      OwedAfterAttach(env, es);
    }
  }

  lemma ExportsOfOtherStep(env: Env, es: seq<Event>, s: State)
    requires es != [] && !Last(es).AttachEv? && !Last(es).RecordEv? && StateMatches(env, Front(es), s)
    ensures OwedWork(env, es) == OwedWork(env, Front(es)) + Only(Locked(env, s, Last(es)).1, IsExport)
  {
    OnlyNone(Locked(env, s, Last(es)).1, IsExport);
    if s.exporter.Some? {
      OwedAfterAttach(env, es);
    }
  }

  // The exports handed out under the lock are exactly those owed, in order.
  lemma {:induction false} IssuedExports(env: Env, es: seq<Event>)
    ensures Only(Issued(env, es), IsExport) == OwedWork(env, es)
  {
    if es != [] {
      var pre := Front(es);
      IssuedExports(env, pre);
      ReachableState(env, pre);
      if Last(es).RecordEv? {
        ExportsOfRecordStep(env, es, Run(env, pre).state);
      } else if Last(es).AttachEv? {
        ExportsOfAttachStep(env, es, Run(env, pre).state);
      } else {
        ExportsOfOtherStep(env, es, Run(env, pre).state);
      }
      OnlyOfConcat(Issued(env, pre), Locked(env, Run(env, pre).state, Last(es)).1, IsExport);
    }
  }

  // In numbers: up to 256 exports for the phases recorded before the first attach, and
  // one for each recorded after it.
  lemma IssuedExportCount(env: Env, es: seq<Event>)
    requires FirstAttach(es).Some?
    ensures var a := FirstAttach(es).value;
            var before, after := |RecordEvents(es[..a])|, |RecordEvents(es[a + 1..])|;
            |Only(Issued(env, es), IsExport)| == (if before <= 256 then before else 256) + after
  {
    IssuedExports(env, es);
    OwedCount(env, es, FirstAttach(es).value);
    assert |OwedWork(env, es)| == |Owed(env, es)|;
  }

  lemma OwedCount(env: Env, es: seq<Event>, a: nat)
    requires FirstAttach(es) == Some(a)
    ensures var before, after := |RecordEvents(es[..a])|, |RecordEvents(es[a + 1..])|;
            |Owed(env, es)| == (if before <= 256 then before else 256) + after
  {
    RecordsTellTheEvents(env, es[..a]);
    RecordsTellTheEvents(env, es[a + 1..]);
  }

  // Over every interleaving, a phase has been exported plus is being exported
  // exactly as often as it is owed, and always by the exporter of the first
  // attach: no phase twice, none left behind.
  lemma ExactlyOnceExport(env: Env, es: seq<Event>, exporter: Exporter, phase: Phase)
    ensures var sys := Run(env, es);
            multiset(sys.done)[ExportSpan(exporter, phase)] + InFlight(sys.tasks)[ExportSpan(exporter, phase)]
            == if ExporterOf(env, es) == Some(exporter) then multiset(Owed(env, es))[phase] else 0
  {
    var sys, w := Run(env, es), ExportSpan(exporter, phase);
    WorkIsConserved(env, es);
    assert (multiset(sys.done) + InFlight(sys.tasks))[w] == multiset(Issued(env, es))[w];
    OnlyKeepsCounts(Issued(env, es), IsExport, w);
    IssuedExports(env, es);
    if ExporterOf(env, es) == Some(exporter) {
      ExportCounts(exporter, Owed(env, es), phase);
    } else {
      assert w !in OwedWork(env, es);
    }
  }

  lemma AtQuiescenceAllOwedIsExported(env: Env, es: seq<Event>, phase: Phase)
    requires Quiescent(Run(env, es)) && ExporterOf(env, es).Some?
    ensures multiset(Run(env, es).done)[ExportSpan(ExporterOf(env, es).value, phase)]
         == multiset(Owed(env, es))[phase]
  {
    ExactlyOnceExport(env, es, ExporterOf(env, es).value, phase);
    NothingInFlight(Run(env, es).tasks);
  }

  lemma RecordsAroundAttach(env: Env, es: seq<Event>, a: nat)
    requires a < |es| && es[a].AttachEv?
    ensures Records(env, es) == Records(env, es[..a]) + Records(env, es[a + 1..])
  {
    var before, attach, after := es[..a], [es[a]], es[a + 1..];
    assert es == before + attach + after;
    RecordsOfConcat(env, before + attach, after);
    assert Front(before + attach) == before;
  }

  // The phases never exported once there is a provider are exactly the ones
  // dropped before it came: those recorded past the bound. Once every operation has
  // returned, the spans exported and those of the dropped phases make up one span for
  // every phase recorded.
  lemma OnlyDroppedPhasesAreNeverExported(env: Env, es: seq<Event>)
    requires FirstAttach(es).Some?
    ensures var before := Records(env, es[..FirstAttach(es).value]);
            var lost := before[Min(MAX_PHASES, |before|)..];
            && multiset(Records(env, es)) == multiset(Owed(env, es)) + multiset(lost)
            && |lost| == Run(env, es[..FirstAttach(es).value]).state.dropped
            && (Quiescent(Run(env, es)) ==>
                  var exporter := ExporterOf(env, es).value;
                  multiset(Only(Run(env, es).done, IsExport)) + multiset(ExportAll(exporter, lost))
                  == multiset(ExportAll(exporter, Records(env, es))))
  {
    var a := FirstAttach(es).value;
    RecordsAroundAttach(env, es, a);
    var before, after := Records(env, es[..a]), Records(env, es[a + 1..]);
    SplitMovesPhases(before, Min(MAX_PHASES, |before|), after);
    ReachableState(env, es[..a]);
    if Quiescent(Run(env, es)) {
      DoneExports(env, es);
      ExportsOfSum(ExporterOf(env, es).value, Owed(env, es), before[Min(MAX_PHASES, |before|)..], Records(env, es));
    }
  }

  lemma DoneExports(env: Env, es: seq<Event>)
    requires Quiescent(Run(env, es)) && ExporterOf(env, es).Some?
    ensures multiset(Only(Run(env, es).done, IsExport)) == multiset(ExportAll(ExporterOf(env, es).value, Owed(env, es)))
  {
    var done := Run(env, es).done;
    WorkIsConserved(env, es);
    NothingInFlight(Run(env, es).tasks);
    IssuedExports(env, es);
    forall w: Work
      ensures multiset(Only(done, IsExport))[w] == multiset(Only(Issued(env, es), IsExport))[w]
    {
      OnlyKeepsCounts(done, IsExport, w);
      OnlyKeepsCounts(Issued(env, es), IsExport, w);
    }
  }

  lemma ExportCount(exporter: Exporter, phases: seq<Phase>, w: Work)
    ensures multiset(ExportAll(exporter, phases))[w] ==
            if w.ExportSpan? && w.exporter == exporter then multiset(phases)[w.phase] else 0
  {
    if w.ExportSpan? && w.exporter == exporter {
      ExportCounts(exporter, phases, w.phase);
    } else {
      assert w !in ExportAll(exporter, phases);
    }
  }

  lemma ExportsOfSum(exporter: Exporter, some: seq<Phase>, rest: seq<Phase>, all: seq<Phase>)
    requires multiset(all) == multiset(some) + multiset(rest)
    ensures multiset(ExportAll(exporter, some)) + multiset(ExportAll(exporter, rest))
         == multiset(ExportAll(exporter, all))
  {
    forall w: Work
      ensures multiset(ExportAll(exporter, some))[w] + multiset(ExportAll(exporter, rest))[w]
           == multiset(ExportAll(exporter, all))[w]
    {
      ExportCount(exporter, some, w);
      ExportCount(exporter, rest, w);
      ExportCount(exporter, all, w);
    }
  }

  lemma SplitMovesPhases(before: seq<Phase>, kept: nat, after: seq<Phase>)
    requires kept <= |before|
    ensures multiset(before + after) == multiset(before[..kept] + after) + multiset(before[kept..])
  {
    assert before == before[..kept] + before[kept..];
  }

  lemma {:induction false} RecordsOfConcat(env: Env, a: seq<Event>, b: seq<Event>)
    ensures Records(env, a + b) == Records(env, a) + Records(env, b)
  {
    if b == [] {
      assert a + b == a;
    } else {
      assert Front(a + b) == a + Front(b);
      RecordsOfConcat(env, a, Front(b));
    }
  }

  // ---------------------------------------------------------------------------
  // The order of one operation's work
  // ---------------------------------------------------------------------------

  function Rank(w: Work): nat {
    match w
    case WriteLine(_) => 0
    case ExportSpan(_, _) => 1
    case EndRoot(_, _, _, _, _) => 2
    case StopProvider(_) => 3
  }

  ghost predicate InOrder(work: seq<Work>) {
    forall i, j :: 0 <= i < j < |work| ==> Rank(work[i]) <= Rank(work[j])
  }

  lemma LockedWorkIsInOrder(env: Env, s: State, e: Event)
    ensures InOrder(Locked(env, s, e).1)
  {
  }

  // Over every interleaving, each operation writes its line before it exports,
  // exports before it ends the root, and ends the root before it stops a provider.
  lemma {:induction false} TasksStayInOrder(env: Env, es: seq<Event>)
    ensures forall task :: task in Run(env, es).tasks ==> InOrder(task)
  {
    if es != [] {
      var before, after, e := Run(env, Front(es)), Run(env, es), Last(es);
      TasksStayInOrder(env, Front(es));
      LockedWorkIsInOrder(env, before.state, e);
      forall task | task in after.tasks
        ensures InOrder(task)
      {
        if e.PerformEv? && task !in before.tasks {
          RestIsInOrder(before.tasks[e.task]);
          assert task == before.tasks[e.task][1..];
        }
      }
    }
  }

  lemma RestIsInOrder(work: seq<Work>)
    requires work != [] && InOrder(work)
    ensures InOrder(work[1..])
  {
  }

  // ---------------------------------------------------------------------------
  // The root span ends once
  // ---------------------------------------------------------------------------

  // The run up to and including the event whose locked section takes the root.
  ghost function TakingRun(es: seq<Event>): (taking: Option<seq<Event>>)
    ensures taking.Some? <==> RootDue(es)
    ensures taking.Some? ==>
              && taking.value != []
              && taking.value <= es
              && RootDue(taking.value)
              && !RootDue(Front(taking.value))
              && (FirstReady(taking.value).None? ==> Last(taking.value).CloseEv?)
  {
    if es == [] then None
    else
      RootDueStep(es);
      if RootDue(Front(es)) then TakingRun(Front(es))
      else if RootDue(es) then Some(es)
      else None
  }

  // How the root span ends when the last event of `taking` takes it: at the
  // first ready instant if the boot had reached ready by then, else at the
  // closing instant; with the phases recorded so far, buffered and dropped.
  function RootEnding(env: Env, taking: seq<Event>): Work
    requires taking != [] && FirstAttach(taking).Some?
    requires FirstReady(taking).Some? || Last(taking).CloseEv?
  {
    var ready := ReadyOf(env, taking);
    var recorded := |Records(env, Front(taking))|;
    var kept := Min(MAX_PHASES, recorded);
    EndRoot(ExporterOf(env, taking).value,
            if ready.Some? then ready.value.wall else Wall(env.clock, Last(taking).now),
            if ready.Some? then Ready else Incomplete,
            kept, recorded - kept)
  }

  ghost function RootEndings(env: Env, es: seq<Event>): seq<Work> {
    var taking := TakingRun(es);
    if taking.Some? then [RootEnding(env, taking.value)] else []
  }

  lemma RootEndingOfLaterStep(env: Env, es: seq<Event>, s: State)
    requires es != [] && StateMatches(env, Front(es), s) && RootDue(Front(es))
    ensures RootEndings(env, es) == RootEndings(env, Front(es))
    ensures Only(Locked(env, s, Last(es)).1, IsRootEnd) == []
  {
    RootDueStep(es);
    RootEndsOfLocked(env, s, Last(es));
  }

  lemma RootEndingOfFirstStep(env: Env, es: seq<Event>, s: State)
    requires es != [] && StateMatches(env, Front(es), s) && !RootDue(Front(es))
    ensures RootEndings(env, Front(es)) == []
    ensures RootEndings(env, es) == Only(Locked(env, s, Last(es)).1, IsRootEnd)
  {
    RootDueStep(es);
    RootEndsOfLocked(env, s, Last(es));
    if RootDue(es) {
      assert TakingRun(es) == Some(es);
      assert |s.phases| == Min(MAX_PHASES, |Records(env, Front(es))|);
    }
  }

  lemma RootEndsOfAttach(env: Env, s: State, provider: nat, service: string)
    ensures Only(AttachStep(env, s, provider, service).1, IsRootEnd) ==
            if s.exporter.Some? || s.ready.None? || s.rootEnded then []
            else [EndRoot(Exporter(provider, env.clock.originWall), s.ready.value.wall, Ready, |s.phases|, s.dropped)]
  {
    if s.exporter.None? {
      var work := AttachStep(env, s, provider, service).1;
      var exports := ExportAll(Exporter(provider, env.clock.originWall), Pending(s.phases));
      var rest := work[|exports|..];
      assert work == exports + rest;
      OnlyOfConcat(exports, rest, IsRootEnd);
      OnlyNone(exports, IsRootEnd);
      OnlyAll(rest, IsRootEnd);
    }
  }

  lemma RootEndsOfReady(env: Env, s: State, end: int)
    ensures Only(ReadyStep(env, s, end).1, IsRootEnd) ==
            if s.ready.Some? then [] else EndRootWork(TakeRootToEnd(s).1, Wall(env.clock, end), Ready)
  {
    if s.ready.None? {
      var work := ReadyStep(env, s, end).1;
      assert work == work[..1] + work[1..];
      OnlyOfConcat(work[..1], work[1..], IsRootEnd);
      OnlyNone(work[..1], IsRootEnd);
      OnlyAll(work[1..], IsRootEnd);
    }
  }

  lemma RootEndsBeforeStop(ends: seq<Work>, provider: nat)
    requires forall w :: w in ends ==> w.EndRoot?
    ensures Only(ends + [StopProvider(provider)], IsRootEnd) == ends
  {
    var work := ends + [StopProvider(provider)];
    assert Front(work) == ends;
    OnlyAll(ends, IsRootEnd);
  }

  lemma RootEndsOfClose(env: Env, s: State, now: int, provider: nat)
    ensures Only(Locked(env, s, CloseEv(now, provider)).1, IsRootEnd)
         == EndRootWork(TakeRootToEnd(s).1, Wall(env.clock, now), Incomplete)
  {
    RootEndsBeforeStop(CloseStep(env, s, now).1, provider);
  }

  // Only a locked section that takes the root hands out an end of it.
  lemma RootEndsOfLocked(env: Env, s: State, e: Event)
    ensures Only(Locked(env, s, e).1, IsRootEnd) ==
            match e
            case ReadyEv(end) =>
              if s.ready.Some? then []
              else EndRootWork(TakeRootToEnd(s).1, Wall(env.clock, end), Ready)
            case AttachEv(provider, _) =>
              if s.exporter.Some? || s.ready.None? || s.rootEnded then []
              else [EndRoot(Exporter(provider, env.clock.originWall), s.ready.value.wall, Ready, |s.phases|, s.dropped)]
            case CloseEv(now, _) => EndRootWork(TakeRootToEnd(s).1, Wall(env.clock, now), Incomplete)
            case _ => []
  {
    match e {
      case AttachEv(provider, service) => RootEndsOfAttach(env, s, provider, service);
      case ReadyEv(end) => RootEndsOfReady(env, s, end);
      case CloseEv(now, provider) => RootEndsOfClose(env, s, now, provider);
      case _ => OnlyNone(Locked(env, s, e).1, IsRootEnd);
    }
  }

  // The root span is handed out to be ended at most once, exactly when it is
  // due, with the outcome, end and counts the events tell.
  lemma {:induction false} IssuedRootEnds(env: Env, es: seq<Event>)
    ensures Only(Issued(env, es), IsRootEnd) == RootEndings(env, es)
  {
    if es != [] {
      var pre := Front(es);
      IssuedRootEnds(env, pre);
      ReachableState(env, pre);
      if RootDue(pre) {
        RootEndingOfLaterStep(env, es, Run(env, pre).state);
      } else {
        RootEndingOfFirstStep(env, es, Run(env, pre).state);
      }
      OnlyOfConcat(Issued(env, pre), Locked(env, Run(env, pre).state, Last(es)).1, IsRootEnd);
    }
  }

  // Over every interleaving, the end of the root span is done or in flight once
  // if it is due and never otherwise, and it is no other end than the one told.
  lemma SingleRootEnd(env: Env, es: seq<Event>, end: Work)
    requires end.EndRoot?
    ensures var sys := Run(env, es);
            multiset(sys.done)[end] + InFlight(sys.tasks)[end]
            == if RootDue(es) && end == RootEnding(env, TakingRun(es).value) then 1 else 0
    ensures Quiescent(Run(env, es)) ==>
              multiset(Run(env, es).done)[end]
              == if RootDue(es) && end == RootEnding(env, TakingRun(es).value) then 1 else 0
  {
    var sys := Run(env, es);
    WorkIsConserved(env, es);
    assert (multiset(sys.done) + InFlight(sys.tasks))[end] == multiset(Issued(env, es))[end];
    OnlyKeepsCounts(Issued(env, es), IsRootEnd, end);
    IssuedRootEnds(env, es);
    if Quiescent(sys) {
      NothingInFlight(sys.tasks);
    }
  }
}
