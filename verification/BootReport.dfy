/**
 What a reader of stderr and a reader of the trace learn about a boot: the lines
 tell every phase, dropped ones included, and the spans nest in time.
 */
module BootReport {
  import opened BootClock
  import opened BootTimeline
  import opened BootExports
  import opened Options
  import opened Sequences
  import Logfmt

  // ---------------------------------------------------------------------------
  // Lines
  // ---------------------------------------------------------------------------

  // The lines a run owes to stderr: one for every phase recorded, under the service
  // name known by then, and one for the first time the boot was marked ready.
  function OwedLines(env: Env, es: seq<Event>): seq<Line> {
    if es == [] then []
    else
      var pre, e := Front(es), Last(es);
      OwedLines(env, pre) +
      match e
      case RecordEv(name, outcome, start, end) =>
        [PhaseLine(MakePhase(env.clock, name, outcome, start, end), ServiceLabelOf(env, pre))]
      case ReadyEv(end) =>
        if FirstReady(pre).Some? then []
        else [ReadyLine(SaturatingSince(end, env.clock.origin), env.clock.source, ServiceLabelOf(env, pre))]
      case _ => []
  }

  predicate IsLine(w: Work) { w.WriteLine? }

  function WriteAll(lines: seq<Line>): (work: seq<Work>)
    ensures |work| == |lines|
  {
    seq(|lines|, i requires 0 <= i < |lines| => WriteLine(lines[i]))
  }

  lemma {:induction false} WriteCounts(lines: seq<Line>, line: Line)
    ensures multiset(WriteAll(lines))[WriteLine(line)] == multiset(lines)[line]
  {
    if lines != [] {
      WriteCounts(Front(lines), line);
      assert WriteAll(lines) == WriteAll(Front(lines)) + [WriteLine(Last(lines))];
      assert lines == Front(lines) + [Last(lines)];
    }
  }

  lemma LinesOfLocked(env: Env, s: State, e: Event)
    ensures Only(Locked(env, s, e).1, IsLine) ==
            match e
            case RecordEv(name, outcome, start, end) =>
              [WriteLine(PhaseLine(MakePhase(env.clock, name, outcome, start, end), ServiceLabel(env, s)))]
            case ReadyEv(end) =>
              if s.ready.Some? then []
              else [WriteLine(ReadyLine(SaturatingSince(end, env.clock.origin), env.clock.source, ServiceLabel(env, s)))]
            case _ => []
  {
    var work := Locked(env, s, e).1;
    if (e.RecordEv? || e.ReadyEv?) && work != [] {
      assert work == work[..1] + work[1..];
      OnlyOfConcat(work[..1], work[1..], IsLine);
      OnlyAll(work[..1], IsLine);
      OnlyNone(work[1..], IsLine);
    } else {
      OnlyNone(work, IsLine);
    }
  }

  lemma {:induction false} IssuedLines(env: Env, es: seq<Event>)
    ensures Only(Issued(env, es), IsLine) == WriteAll(OwedLines(env, es))
  {
    if es != [] {
      var pre := Front(es);
      var s := Run(env, pre).state;
      IssuedLines(env, pre);
      OnlyOfConcat(Issued(env, pre), Locked(env, s, Last(es)).1, IsLine);
      LinesOfStep(env, es, s);
    }
  }

  lemma LinesOfStep(env: Env, es: seq<Event>, s: State)
    requires es != [] && s == Run(env, Front(es)).state
    ensures WriteAll(OwedLines(env, es)) == WriteAll(OwedLines(env, Front(es))) + Only(Locked(env, s, Last(es)).1, IsLine)
  {
    ReachableState(env, Front(es));
    assert ServiceLabel(env, s) == ServiceLabelOf(env, Front(es));
    LinesOfLocked(env, s, Last(es));
  }

  // Once every operation has returned, stderr holds exactly the lines owed, each
  // of which is one line and reads back as what it says.
  lemma StderrTellsTheBoot(env: Env, es: seq<Event>, line: Line)
    requires Quiescent(Run(env, es))
    ensures multiset(Run(env, es).done)[WriteLine(line)] == multiset(OwedLines(env, es))[line]
    ensures Logfmt.HasNoControl(Logfmt.Render(line))
    ensures Logfmt.ReadLine(Logfmt.Render(line)) == Some(Logfmt.ReportOf(line))
  {
    WorkIsConserved(env, es);
    NothingInFlight(Run(env, es).tasks);
    OnlyKeepsCounts(Issued(env, es), IsLine, WriteLine(line));
    IssuedLines(env, es);
    WriteCounts(OwedLines(env, es), line);
    Logfmt.RenderedLineHasNoControl(line);
    Logfmt.LineReadsBack(line);
  }

  function PhasesTold(lines: seq<Line>): seq<Phase> {
    if lines == [] then []
    else PhasesTold(Front(lines)) + if Last(lines).PhaseLine? then [Last(lines).phase] else []
  }

  function Milestones(lines: seq<Line>): nat {
    if lines == [] then 0
    else Milestones(Front(lines)) + if Last(lines).ReadyLine? then 1 else 0
  }

  lemma {:induction false} LinesTellRecords(env: Env, es: seq<Event>)
    ensures PhasesTold(OwedLines(env, es)) == Records(env, es)
    ensures Milestones(OwedLines(env, es)) == if FirstReady(es).Some? then 1 else 0
  {
    if es != [] {
      var pre := Front(es);
      LinesTellRecords(env, pre);
      var before, lines := OwedLines(env, pre), OwedLines(env, es);
      if |lines| > |before| {
        assert Front(lines) == before;
      } else {
        assert lines == before;
      }
    }
  }

  // The lines tell every phase recorded, in lock order and whether or not it was
  // buffered, and the milestone once if the boot reached ready and else never.
  lemma LinesTellEveryPhase(env: Env, es: seq<Event>)
    ensures PhasesTold(OwedLines(env, es)) == Records(env, es)
    ensures Milestones(OwedLines(env, es)) == if FirstReady(es).Some? then 1 else 0
    ensures |PhasesTold(OwedLines(env, es))| == |RecordEvents(es)|
    ensures forall i :: 0 <= i < |RecordEvents(es)| ==>
              IsPhaseOf(env.clock, RecordEvents(es)[i], PhasesTold(OwedLines(env, es))[i])
  {
    LinesTellRecords(env, es);
    RecordsTellTheEvents(env, es);
  }

  // A milestone line tells when the first call marked the boot ready, counted from the
  // origin, and what the origin is.
  lemma {:induction false} MilestoneTellsReady(env: Env, es: seq<Event>, line: Line)
    requires line in OwedLines(env, es) && line.ReadyLine?
    ensures FirstReady(es).Some? && line.source == env.clock.source
    ensures var end := es[FirstReady(es).value].end;
            line.at == if end >= env.clock.origin then end - env.clock.origin else 0
  {
    var pre := Front(es);
    if line in OwedLines(env, pre) {
      MilestoneTellsReady(env, pre, line);
    }
  }

  // ---------------------------------------------------------------------------
  // Times
  // ---------------------------------------------------------------------------

  lemma {:induction false} RecordedTimes(env: Env, es: seq<Event>, phase: Phase)
    requires phase in Records(env, es)
    ensures env.clock.originWall <= phase.start
    ensures phase.end == env.clock.originWall + phase.at
    ensures phase.end - phase.start <= phase.took
  {
    if phase in Records(env, Front(es)) {
      RecordedTimes(env, Front(es), phase);
    }
  }

  lemma {:induction false} RecordedByEvent(env: Env, es: seq<Event>, phase: Phase)
    requires phase in Records(env, es)
    ensures exists e :: e in es && IsPhaseOf(env.clock, e, phase)
  {
    if phase in Records(env, Front(es)) {
      RecordedByEvent(env, Front(es), phase);
      var e :| e in Front(es) && IsPhaseOf(env.clock, e, phase);
      assert e in es;
    } else {
      assert Last(es) in es && IsPhaseOf(env.clock, Last(es), phase);
    }
  }

  // A phase whose guard ended by the instant that marked the boot ready.
  lemma EndsByReady(env: Env, e: Event, phase: Phase, ready: int)
    requires IsPhaseOf(env.clock, e, phase) && e.end <= ready
    ensures phase.end <= Wall(env.clock, ready)
  {
    WallIsMonotone(env.clock, e.end, ready);
  }

  lemma OwedPhasesWereRecorded(env: Env, es: seq<Event>, phase: Phase)
    requires phase in Owed(env, es)
    ensures phase in Records(env, es)
  {
    OnlyDroppedPhasesAreNeverExported(env, es);
    assert phase in multiset(Owed(env, es));
    assert phase in multiset(Records(env, es));
  }

  lemma IssuedIsOwed(env: Env, es: seq<Event>, w: Work)
    requires w in Issued(env, es) && (w.ExportSpan? || w.EndRoot?)
    ensures w.ExportSpan? ==> ExporterOf(env, es) == Some(w.exporter) && w.phase in Owed(env, es)
    ensures w.EndRoot? ==> RootDue(es) && w == RootEnding(env, TakingRun(es).value)
  {
    assert w in multiset(Issued(env, es));
    if w.ExportSpan? {
      OnlyKeepsCounts(Issued(env, es), IsExport, w);
      IssuedExports(env, es);
      assert w in multiset(OwedWork(env, es));
    } else {
      OnlyKeepsCounts(Issued(env, es), IsRootEnd, w);
      IssuedRootEnds(env, es);
      assert w in multiset(RootEndings(env, es));
    }
  }

  lemma FirstAttachOfPrefix(pre: seq<Event>, es: seq<Event>)
    requires pre <= es && FirstAttach(pre).Some?
    ensures FirstAttach(es) == FirstAttach(pre)
  {
    var p, a := FirstAttach(pre).value, FirstAttach(es);
    assert es[p] == pre[p];
    assert a.Some? && a.value <= p;
    assert es[a.value] == pre[a.value];
  }

  lemma FirstReadyOfPrefix(pre: seq<Event>, es: seq<Event>)
    requires pre <= es && FirstReady(pre).Some?
    ensures FirstReady(es) == FirstReady(pre)
  {
    var p, a := FirstReady(pre).value, FirstReady(es);
    assert es[p] == pre[p];
    assert a.Some? && a.value <= p;
    assert es[a.value] == pre[a.value];
  }

  // Every exported phase belongs to the one root span and starts no earlier than
  // it; where the root ended at ready, a phase ends inside it exactly when its offset
  // is within that of the milestone, and so does every phase that ended by the instant
  // the boot was marked ready.
  lemma SpansNestInTheRoot(env: Env, es: seq<Event>, span: Work, root: Work)
    requires span in Issued(env, es) && span.ExportSpan?
    requires root in Issued(env, es) && root.EndRoot?
    ensures span.exporter == root.exporter
    ensures root.exporter.rootStart <= span.phase.start
    ensures span.phase.end - span.phase.start <= span.phase.took
    ensures root.outcome.Ready? ==> FirstReady(es).Some?
    ensures root.outcome.Ready? ==>
              (span.phase.end <= root.end <==> span.phase.at <= ReadyOf(env, es).value.at)
    ensures exists e :: e in es && IsPhaseOf(env.clock, e, span.phase)
    ensures root.outcome.Ready? ==>
              forall e :: e in es && IsPhaseOf(env.clock, e, span.phase) && e.end <= es[FirstReady(es).value].end ==>
                span.phase.end <= root.end
  {
    IssuedIsOwed(env, es, span);
    IssuedIsOwed(env, es, root);
    OwedPhasesWereRecorded(env, es, span.phase);
    RecordedTimes(env, es, span.phase);
    var taking := TakingRun(es).value;
    FirstAttachOfPrefix(taking, es);
    if root.outcome.Ready? {
      FirstReadyOfPrefix(taking, es);
      forall e | e in es && IsPhaseOf(env.clock, e, span.phase) && e.end <= es[FirstReady(es).value].end
        ensures span.phase.end <= root.end
      {
        EndsByReady(env, e, span.phase, es[FirstReady(es).value].end);
      }
    }
    RecordedByEvent(env, es, span.phase);
  }
}
