/**
 The boot timeline as the object the program keeps: fields updated in place by each
 locked section, which returns the work its caller performs after unlocking.
 */
module BootClass {
  import opened BootClock
  import opened BootTimeline
  import opened Options

  class Timeline {
    const env: Env
    var service: Option<string>
    var phases: seq<Recorded>
    var dropped: nat
    var ready: Option<ReadyMark>
    var exporter: Option<Exporter>
    var rootEnded: bool

    // The abstract state of the transition system.
    function Snapshot(): State
      reads this
    {
      State(service, phases, dropped, ready, exporter, rootEnded)
    }

    constructor (env: Env)
      ensures this.env == env && Snapshot() == EMPTY
    {
      this.env := env;
      service, phases, dropped := None, [], 0;
      ready, exporter, rootEnded := None, None, false;
    }

    method SetServiceName(name: string)
      modifies this
      ensures Snapshot() == Locked(env, old(Snapshot()), ServiceEv(name)).0
    {
      service := Some(name);
    }

    method Label() returns (name: string)
      ensures name == ServiceLabel(env, Snapshot())
    {
      if service.Some? {
        name := service.value;
      } else {
        name := env.defaultService;
      }
    }

    method TakeRoot() returns (taken: Option<Taken>)
      modifies this
      ensures (Snapshot(), taken) == TakeRootToEnd(old(Snapshot()))
    {
      if rootEnded || exporter.None? {
        return None;
      }
      rootEnded := true;
      taken := Some(Taken(exporter.value, |phases|, dropped));
    }

    method Record(name: string, start: int, end: int, outcome: Outcome) returns (work: seq<Work>)
      modifies this
      ensures Snapshot() == Locked(env, old(Snapshot()), RecordEv(name, outcome, start, end)).0
      ensures work == Locked(env, old(Snapshot()), RecordEv(name, outcome, start, end)).1
      ensures work != [] && work[0].WriteLine? && work[0].line.PhaseLine?
      ensures IsPhaseOf(env.clock, RecordEv(name, outcome, start, end), work[0].line.phase)
    {
      var phase := Phase(name, outcome, Wall(env.clock, start), Wall(env.clock, end),
                         SaturatingSince(end, start), SaturatingSince(end, env.clock.origin));
      if |phases| < MAX_PHASES {
        phases := phases + [Recorded(phase, exporter.Some?)];
      } else {
        dropped := dropped + 1;
      }
      var label' := Label();
      work := [WriteLine(PhaseLine(phase, label'))];
      if exporter.Some? {
        work := work + [ExportSpan(exporter.value, phase)];
      }
    }

    method MarkReady(end: int) returns (work: seq<Work>)
      modifies this
      ensures Snapshot() == Locked(env, old(Snapshot()), ReadyEv(end)).0
      ensures work == Locked(env, old(Snapshot()), ReadyEv(end)).1
    {
      var at := SaturatingSince(end, env.clock.origin);
      var wall := Wall(env.clock, end);
      if ready.Some? {
        return [];
      }
      ready := Some(ReadyMark(wall, at));
      var taken := TakeRoot();
      var label' := Label();
      work := [WriteLine(ReadyLine(at, env.clock.source, label'))];
      if taken.Some? {
        work := work + [EndRoot(taken.value.exporter, wall, Ready, taken.value.count, taken.value.dropped)];
      }
    }

    // Marks every buffered phase exported, and returns those that were not.
    method DrainPending() returns (pending: seq<Phase>)
      modifies this`phases
      ensures pending == Pending(old(phases))
      ensures phases == AllExported(old(phases))
    {
      pending := [];
      ghost var was := phases;
      for i := 0 to |phases|
        invariant |phases| == |was|
        invariant phases[..i] == AllExported(was[..i]) && phases[i..] == was[i..]
        invariant pending == Pending(was[..i])
      {
        assert phases[i] == phases[i..][0] == was[i];
        assert was[..i + 1][..i] == was[..i] && phases[i + 1..] == phases[i..][1..];
        if !phases[i].exported {
          pending := pending + [phases[i].phase];
        }
        phases := phases[i := phases[i].(exported := true)];
        assert phases[..i + 1] == phases[..i] + [phases[i]];
      }
      assert phases == phases[..|was|] && was == was[..|was|];
    }

    // The number of phases exported, when this call attached the provider.
    method Attach(provider: nat, serviceName: string) returns (count: Option<nat>, work: seq<Work>)
      modifies this
      ensures Snapshot() == Locked(env, old(Snapshot()), AttachEv(provider, serviceName)).0
      ensures work == Locked(env, old(Snapshot()), AttachEv(provider, serviceName)).1
      ensures count == if old(exporter).Some? then None else Some(|Pending(old(phases))|)
    {
      if exporter.Some? {
        return None, [];
      }
      if service.None? {
        service := Some(serviceName);
      }
      var attached := Exporter(provider, env.clock.originWall);
      exporter := Some(attached);
      var pending := DrainPending();
      var taken := None;
      if ready.Some? {
        taken := TakeRoot();
      }
      work := ExportAll(attached, pending);
      if ready.Some? && taken.Some? {
        work := work + [EndRoot(taken.value.exporter, ready.value.wall, Ready, taken.value.count, taken.value.dropped)];
      }
      count := Some(|pending|);
    }

    // The first provider wins: any later call exports nothing and changes nothing.
    method Flush(provider: nat, serviceName: string) returns (count: nat, work: seq<Work>)
      modifies this
      ensures Snapshot() == Locked(env, old(Snapshot()), AttachEv(provider, serviceName)).0
      ensures work == Locked(env, old(Snapshot()), AttachEv(provider, serviceName)).1
      ensures exporter.Some?
      ensures old(exporter).Some? ==> count == 0 && work == [] && Snapshot() == old(Snapshot())
      ensures old(exporter).None? ==> count == |Pending(old(phases))|
    {
      var attached;
      attached, work := Attach(provider, serviceName);
      count := if attached.Some? then attached.value else 0;
    }

    method Close(now: int) returns (work: seq<Work>)
      modifies this
      ensures (Snapshot(), work) == CloseStep(env, old(Snapshot()), now)
    {
      var wall := Wall(env.clock, now);
      var taken := TakeRoot();
      work := [];
      if taken.Some? {
        work := [EndRoot(taken.value.exporter, wall, Incomplete, taken.value.count, taken.value.dropped)];
      }
    }

    method Phases() returns (buffered: seq<Phase>)
      ensures |buffered| == |phases|
      ensures forall i :: 0 <= i < |phases| ==> buffered[i] == phases[i].phase
    {
      buffered := [];
      for i := 0 to |phases|
        invariant |buffered| == i
        invariant forall j :: 0 <= j < i ==> buffered[j] == phases[j].phase
      {
        buffered := buffered + [phases[i].phase];
      }
    }
  }

  // Times one phase until it is finished, failed, or dropped unfinished.
  class PhaseGuard {
    const timeline: Timeline
    const start: int
    var name: Option<string>

    constructor (timeline: Timeline, name: string, start: int)
      ensures this.timeline == timeline && this.start == start && this.name == Some(name)
    {
      this.timeline := timeline;
      this.start := start;
      this.name := Some(name);
    }

    method End(now: int, outcome: Outcome) returns (work: seq<Work>)
      modifies this, timeline
      ensures name == None
      ensures old(name).None? ==> timeline.Snapshot() == old(timeline.Snapshot()) && work == []
      ensures old(name).Some? ==>
                var step := Locked(timeline.env, old(timeline.Snapshot()), RecordEv(old(name).value, outcome, start, now));
                timeline.Snapshot() == step.0 && work == step.1
    {
      work := [];
      if name.Some? {
        var taken := name.value;
        name := None;
        work := timeline.Record(taken, start, now, outcome);
      }
    }

    // Ends the phase with `outcome`, then goes out of scope at `later`: the phase
    // is recorded once, as it ended, and not again as a failure.
    method EndAndDrop(now: int, later: int, outcome: Outcome) returns (work: seq<Work>)
      requires name.Some?
      modifies this, timeline
      ensures timeline.Snapshot()
           == Locked(timeline.env, old(timeline.Snapshot()), RecordEv(old(name).value, outcome, start, now)).0
      ensures work
           == Locked(timeline.env, old(timeline.Snapshot()), RecordEv(old(name).value, outcome, start, now)).1
      ensures work != [] && work[0].WriteLine? && work[0].line.PhaseLine?
      ensures IsPhaseOf(timeline.env.clock, RecordEv(old(name).value, outcome, start, now), work[0].line.phase)
    {
      work := End(now, outcome);
      var again := End(later, Failed);
      work := work + again;
    }
  }
}
