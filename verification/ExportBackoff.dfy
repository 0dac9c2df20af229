/**
 The rate limit on the SDK's own export-failure events: each kind of failure is let
 through once, then again only as its window allows. Instants are nanoseconds in an
 unbounded integer, and may reach the filter out of order: each caller reads the clock
 before it takes the lock.
 */
module ExportBackoff {
  import opened Options
  import opened Sequences
  import Text

  const SECOND: nat := 1_000_000_000
  const FIRST_BACKOFF: nat := 60 * SECOND
  const MAX_BACKOFF: nat := 60 * 60 * SECOND

  datatype Window = Window(nextAllowed: int, backoff: nat)

  // ---------------------------------------------------------------------------
  // Which events are export failures
  // ---------------------------------------------------------------------------

  // From the most severe to the most verbose.
  datatype Level = Error | Warn | Info | Debug | Trace

  // A field visited as a string, or as the debug text of any other value.
  datatype Field = StrField(name: string, text: string) | DebugField(name: string, text: string)

  datatype Event = Event(target: string, level: Level, name: string, fields: seq<Field>)

  const NAME: string := "name"

  predicate IsString(field: Field) {
    field.StrField? && field.name == NAME
  }

  // The last string field called `name`, if there is one.
  function LastString(fields: seq<Field>): (text: Option<string>)
    ensures text.None? ==> forall i :: 0 <= i < |fields| ==> !IsString(fields[i])
    ensures text.Some? ==> exists i :: 0 <= i < |fields| && IsString(fields[i]) && fields[i].text == text.value
                                       && forall j :: i < j < |fields| ==> !IsString(fields[j])
  {
    if fields == [] then None
    else if IsString(Last(fields)) then Some(Last(fields).text)
    else LastString(Front(fields))
  }

  // The first field called `name`, read as text.
  function FirstText(fields: seq<Field>): Option<string> {
    if fields == [] then None
    else
      var earlier := FirstText(Front(fields));
      if earlier.Some? then earlier
      else if Last(fields).name != NAME then None
      else if Last(fields).StrField? then Some(Last(fields).text)
      else Some(Text.TrimMatches(Last(fields).text, '"'))
  }

  // What an event is called: its last string field `name`, else its first `name`
  // of any other type, else the name of its call site.
  function NameOf(event: Event): string {
    var str, text := LastString(event.fields), FirstText(event.fields);
    if str.Some? then str.value else if text.Some? then text.value else event.name
  }

  method VisitName(fields: seq<Field>) returns (name: Option<string>)
    ensures name == if LastString(fields).Some? then LastString(fields) else FirstText(fields)
  {
    name := None;
    for i := 0 to |fields|
      invariant name == if LastString(fields[..i]).Some? then LastString(fields[..i]) else FirstText(fields[..i])
    {
      assert Front(fields[..i + 1]) == fields[..i];
      match fields[i] {
        case StrField(key, text) =>
          if key == NAME {
            name := Some(text);
          }
        case DebugField(key, text) =>
          if key == NAME && name.None? {
            name := Some(Text.TrimMatches(text, '"'));
          }
      }
    }
    assert fields[..|fields|] == fields;
  }

  predicate IsLastStringName(fields: seq<Field>, i: nat) {
    && i < |fields| && fields[i].StrField? && fields[i].name == "name"
    && forall j :: i < j < |fields| && fields[j].StrField? ==> fields[j].name != "name"
  }

  predicate IsFirstName(fields: seq<Field>, i: nat) {
    && i < |fields| && fields[i].name == "name"
    && forall j :: 0 <= j < i ==> fields[j].name != "name"
  }

  ghost predicate IsUnquoted(text: string, t: string) {
    && (t != [] ==> t[0] != '"' && Last(t) != '"')
    && exists k: nat :: Text.IsTrimmed(text, t, '"', k)
  }

  // What an event is called, by the positions of its fields.
  ghost predicate IsNameOf(event: Event, name: string) {
    var fields := event.fields;
    if exists i :: 0 <= i < |fields| && fields[i].StrField? && fields[i].name == "name" then
      exists i: nat :: IsLastStringName(fields, i) && name == fields[i].text
    else if exists i :: 0 <= i < |fields| && fields[i].name == "name" then
      exists i: nat :: IsFirstName(fields, i) && IsUnquoted(fields[i].text, name)
    else name == event.name
  }

  // The kind of an event called `name`.
  ghost predicate IsKindOf(event: Event, name: string, kind: Option<string>) {
    if "opentelemetry" <= event.target && (event.level == Error || event.level == Warn) && Text.IsSubstring(name, "Export")
    then kind == Some(name) else kind == None
  }

  lemma StringNameIsLast(fields: seq<Field>)
    ensures LastString(fields).Some? ==> exists i: nat :: IsLastStringName(fields, i) && LastString(fields).value == fields[i].text
    ensures LastString(fields).None? ==> forall i :: 0 <= i < |fields| && fields[i].StrField? ==> fields[i].name != "name"
  {
    if LastString(fields).Some? {
      var i :| 0 <= i < |fields| && IsString(fields[i]) && fields[i].text == LastString(fields).value
               && forall j :: i < j < |fields| ==> !IsString(fields[j]);
      assert IsLastStringName(fields, i);
    } else {
      assert forall i :: 0 <= i < |fields| ==> !IsString(fields[i]);
    }
  }

  lemma {:induction false} TextNameIsFirst(fields: seq<Field>)
    requires forall i :: 0 <= i < |fields| && fields[i].StrField? ==> fields[i].name != "name"
    ensures FirstText(fields).Some? ==> exists i: nat :: IsFirstName(fields, i) && IsUnquoted(fields[i].text, FirstText(fields).value)
    ensures FirstText(fields).None? ==> forall i :: 0 <= i < |fields| ==> fields[i].name != "name"
  {
    if fields != [] {
      var init := Front(fields);
      TextNameIsFirst(init);
      if FirstText(init).Some? {
        var i: nat :| IsFirstName(init, i) && IsUnquoted(init[i].text, FirstText(init).value);
        assert IsFirstName(fields, i) && IsUnquoted(fields[i].text, FirstText(fields).value);
      } else if Last(fields).name == "name" {
        assert IsFirstName(fields, |fields| - 1);
        assert IsUnquoted(Last(fields).text, FirstText(fields).value);
      }
    }
  }

  lemma NameIsByPosition(event: Event)
    ensures IsNameOf(event, NameOf(event))
  {
    StringNameIsLast(event.fields);
    if LastString(event.fields).None? {
      TextNameIsFirst(event.fields);
    }
  }

  // An event is called by its last string field `name`, else by its first field `name`
  // of any other type without the quotes around it, else by its call site; and it has a
  // kind, that name, exactly if it is an SDK warning or error and the name holds the
  // word.
  lemma KindIsByName(event: Event)
    ensures exists name :: IsNameOf(event, name) && IsKindOf(event, name, KindOf(event))
  {
    var name := NameOf(event);
    NameIsByPosition(event);
    Text.ContainsIsSubstring(name, "Export");
    assert IsKindOf(event, name, KindOf(event));
  }

  function KindOf(event: Event): Option<string> {
    if !("opentelemetry" <= event.target) || !(event.level.Error? || event.level.Warn?) then None
    else if Text.Contains(NameOf(event), "Export") then Some(NameOf(event))
    else None
  }

  method ExportFailureKind(event: Event) returns (kind: Option<string>)
    ensures kind == KindOf(event)
    ensures exists name :: IsNameOf(event, name) && IsKindOf(event, name, kind)
  {
    KindIsByName(event);
    if !("opentelemetry" <= event.target) || !(event.level.Error? || event.level.Warn?) {
      return None;
    }
    var found := VisitName(event.fields);
    var name := if found.Some? then found.value else event.name;
    if Text.Contains(name, "Export") {
      kind := Some(name);
    } else {
      kind := None;
    }
  }

  // ---------------------------------------------------------------------------
  // The filter
  // ---------------------------------------------------------------------------

  function AdmitStep(windows: map<string, Window>, kind: string, now: int): (map<string, Window>, bool) {
    if kind !in windows then (windows[kind := Window(now + FIRST_BACKOFF, FIRST_BACKOFF)], true)
    else if now >= windows[kind].nextAllowed then
      var doubled := windows[kind].backoff * 2;
      var backoff := if doubled <= MAX_BACKOFF then doubled else MAX_BACKOFF;
      (windows[kind := Window(now + backoff, backoff)], true)
    else (windows, false)
  }

  class ExportFailureBackoff {
    var windows: map<string, Window>

    constructor ()
      ensures windows == map[]
    {
      windows := map[];
    }

    method Admit(kind: string, now: int) returns (admitted: bool)
      modifies this
      ensures (windows, admitted) == AdmitStep(old(windows), kind, now)
    {
      if kind !in windows {
        windows := windows[kind := Window(now + FIRST_BACKOFF, FIRST_BACKOFF)];
        return true;
      }
      var window := windows[kind];
      if now >= window.nextAllowed {
        window := window.(backoff := if window.backoff * 2 <= MAX_BACKOFF then window.backoff * 2 else MAX_BACKOFF);
        window := window.(nextAllowed := now + window.backoff);
        windows := windows[kind := window];
        return true;
      }
      return false;
    }

    method EventEnabled(event: Event, now: int) returns (enabled: bool)
      modifies this
      ensures (windows, enabled) == FilterStep(old(windows), Stamped(event, now))
    {
      var kind := ExportFailureKind(event);
      if kind.Some? {
        enabled := Admit(kind.value, now);
      } else {
        enabled := true;
      }
    }
  }

  // An event and the instant its caller read before entering the filter.
  datatype Stamped = Stamped(event: Event, now: int)

  function FilterStep(windows: map<string, Window>, e: Stamped): (map<string, Window>, bool) {
    var kind := KindOf(e.event);
    if kind.None? then (windows, true) else AdmitStep(windows, kind.value, e.now)
  }

  function WindowsAfter(es: seq<Stamped>): map<string, Window> {
    if es == [] then map[] else FilterStep(WindowsAfter(Front(es)), Last(es)).0
  }

  // Whether the filter lets the last event of a stream through.
  predicate IsEnabled(es: seq<Stamped>)
    requires es != []
  {
    FilterStep(WindowsAfter(Front(es)), Last(es)).1
  }

  // ---------------------------------------------------------------------------
  // The limit, told from the history of one kind
  // ---------------------------------------------------------------------------

  function Pow2(n: nat): (p: nat)
    ensures p > 0
  {
    if n == 0 then 1 else 2 * Pow2(n - 1)
  }

  function WaitSeconds(n: nat): nat
    requires n > 0
  {
    if 60 * Pow2(n - 1) <= 3600 then 60 * Pow2(n - 1) else 3600
  }

  // How long the `n`-th admission holds off the next one: a minute, two, four and
  // so on, up to an hour.
  function Wait(n: nat): nat
    requires n > 0
  {
    WaitSeconds(n) * SECOND
  }

  predicate IsDue(admitted: seq<int>, now: int) {
    admitted == [] || now >= Last(admitted) + Wait(|admitted|)
  }

  // The instants let through out of all those at which one kind of failure happened.
  function Admitted(times: seq<int>): seq<int> {
    if times == [] then []
    else
      var earlier := Admitted(Front(times));
      if IsDue(earlier, Last(times)) then earlier + [Last(times)] else earlier
  }

  // The instants of the failures of one kind, in the order they reached the filter.
  function TimesOf(es: seq<Stamped>, kind: string): seq<int> {
    if es == [] then []
    else
      var earlier := TimesOf(Front(es), kind);
      if KindOf(Last(es).event) == Some(kind) then earlier + [Last(es).now] else earlier
  }

  ghost predicate WindowMatches(windows: map<string, Window>, kind: string, admitted: seq<int>) {
    if admitted == [] then kind !in windows
    else kind in windows && windows[kind] == Window(Last(admitted) + Wait(|admitted|), Wait(|admitted|))
  }

  lemma WaitDoubles(n: nat)
    requires n > 0
    ensures Wait(n + 1) == if 2 * Wait(n) <= MAX_BACKOFF then 2 * Wait(n) else MAX_BACKOFF
    ensures Wait(n) <= Wait(n + 1) <= MAX_BACKOFF
    ensures Wait(1) == FIRST_BACKOFF == 60_000_000_000 && MAX_BACKOFF == 3_600_000_000_000
  {
    assert Pow2(n) == 2 * Pow2(n - 1);
  }

  lemma AdmitKeepsWindow(windows: map<string, Window>, kind: string, admitted: seq<int>, now: int)
    requires WindowMatches(windows, kind, admitted)
    ensures AdmitStep(windows, kind, now).1 == IsDue(admitted, now)
    ensures WindowMatches(AdmitStep(windows, kind, now).0, kind,
                          if IsDue(admitted, now) then admitted + [now] else admitted)
  {
    WaitDoubles(if admitted == [] then 1 else |admitted|);
  }

  // The windows hold, for every kind, what its own history of admissions says.
  lemma {:induction false} WindowsMatchHistory(es: seq<Stamped>, kind: string)
    ensures WindowMatches(WindowsAfter(es), kind, Admitted(TimesOf(es, kind)))
  {
    if es != [] {
      WindowsMatchHistory(Front(es), kind);
      if KindOf(Last(es).event) == Some(kind) {
        var times := TimesOf(Front(es), kind);
        AdmitKeepsWindow(WindowsAfter(Front(es)), kind, Admitted(times), Last(es).now);
        assert Front(times + [Last(es).now]) == times;
      }
    }
  }

  // Over every stream, the filter refines the limit on each kind taken alone: an
  // event that is no export failure passes and changes nothing, and an export
  // failure passes exactly when the history of its own kind makes it due.
  lemma FilterRefinesLimit(es: seq<Stamped>)
    requires es != []
    ensures KindOf(Last(es).event).None? ==> IsEnabled(es) && WindowsAfter(es) == WindowsAfter(Front(es))
    ensures KindOf(Last(es).event).Some? ==>
              (IsEnabled(es) <==> IsDue(Admitted(TimesOf(Front(es), KindOf(Last(es).event).value)), Last(es).now))
  {
    var kind := KindOf(Last(es).event);
    if kind.Some? {
      WindowsMatchHistory(Front(es), kind.value);
      AdmitKeepsWindow(WindowsAfter(Front(es)), kind.value, Admitted(TimesOf(Front(es), kind.value)), Last(es).now);
    }
  }

  // What happens to other kinds, and to other events, never changes a decision.
  lemma KindsAreIndependent(a: seq<Stamped>, b: seq<Stamped>, e: Stamped)
    requires KindOf(e.event).Some? ==> TimesOf(a, KindOf(e.event).value) == TimesOf(b, KindOf(e.event).value)
    ensures IsEnabled(a + [e]) == IsEnabled(b + [e])
  {
    FilterRefinesLimit(a + [e]);
    FilterRefinesLimit(b + [e]);
    assert Front(a + [e]) == a && Front(b + [e]) == b;
  }

  // An event an hour or more after the last admission of its kind is let through,
  // and one less than a minute after it never is.
  lemma AnHourIsEnough(es: seq<Stamped>, kind: string)
    requires es != [] && KindOf(Last(es).event) == Some(kind)
    requires Admitted(TimesOf(Front(es), kind)) != []
    ensures var last := Last(Admitted(TimesOf(Front(es), kind)));
            && (Last(es).now >= last + MAX_BACKOFF ==> IsEnabled(es))
            && (Last(es).now < last + FIRST_BACKOFF ==> !IsEnabled(es))
  {
    FilterRefinesLimit(es);
    WaitIsBounded(|Admitted(TimesOf(Front(es), kind))|);
  }

  lemma {:induction false} WaitIsBounded(n: nat)
    requires n > 0
    ensures FIRST_BACKOFF <= Wait(n) <= MAX_BACKOFF
  {
    if n > 1 {
      WaitIsBounded(n - 1);
      WaitDoubles(n - 1);
    }
  }

  // ---------------------------------------------------------------------------
  // How many lines a failure can write
  // ---------------------------------------------------------------------------

  // The closed form of all waits before the admission numbered `n`, from zero.
  function EarliestSeconds(n: nat): nat {
    if n <= 6 then 60 * (Pow2(n) - 1) else 3780 + 3600 * (n - 6)
  }

  function Earliest(n: nat): nat {
    EarliestSeconds(n) * SECOND
  }

  lemma {:induction false} PowGrows(n: nat)
    requires n >= 6
    ensures Pow2(n) >= 64
  {
    if n == 6 {
      SmallPowers();
    } else {
      PowGrows(n - 1);
    }
  }

  lemma SmallPowers()
    ensures Pow2(0) == 1 && Pow2(1) == 2 && Pow2(2) == 4 && Pow2(3) == 8
    ensures Pow2(4) == 16 && Pow2(5) == 32 && Pow2(6) == 64
  {
  }

  lemma EarliestGrowsByWait(n: nat)
    requires n > 0
    ensures EarliestSeconds(n) == EarliestSeconds(n - 1) + WaitSeconds(n)
  {
    SmallPowers();
    if n >= 7 {
      PowGrows(n - 1);
    }
  }

  // The admissions of one kind, whatever the order of the instants given: they
  // strictly increase, and the one numbered `n` comes no earlier than the first
  // by the closed form.
  lemma {:induction false} AdmissionsAreSpaced(times: seq<int>, n: nat)
    requires n < |Admitted(times)|
    ensures Admitted(times)[0] == times[0]
    ensures Admitted(times)[n] >= times[0] + Earliest(n)
    ensures n > 0 ==> Admitted(times)[n - 1] + Wait(n) <= Admitted(times)[n]
  {
    var admitted, earlier := Admitted(times), Admitted(Front(times));
    if n < |earlier| {
      AdmissionsAreSpaced(Front(times), n);
    } else if n > 0 {
      AdmissionsAreSpaced(Front(times), n - 1);
      assert admitted[n] == Last(times) && Last(earlier) == earlier[n - 1];
      EarliestGrowsByWait(n);
    } else if Front(times) != [] {
      FirstIsAdmitted(Front(times));
    }
  }

  lemma FirstIsAdmitted(times: seq<int>)
    requires times != []
    ensures Admitted(times) != []
  {
  }

  // A kind of failure writes at most `n` lines as long as every instant falls short
  // of the `n`-th earliest one.
  lemma LinesAreBounded(times: seq<int>, n: nat)
    requires n > 0 && forall t :: t in times ==> t < times[0] + Earliest(n)
    ensures |Admitted(times)| <= n
  {
    if |Admitted(times)| > n {
      AdmissionsAreSpaced(times, n);
      AdmittedHappened(times, n);
      assert false;
    }
  }

  lemma {:induction false} AdmittedHappened(times: seq<int>, n: nat)
    requires n < |Admitted(times)|
    ensures Admitted(times)[n] in times
  {
    if n < |Admitted(Front(times))| {
      AdmittedHappened(Front(times), n);
    }
  }

  // A failure every second from `start` on, `count` of them.
  function Dense(start: int, count: nat): (times: seq<int>)
    ensures |times| == count
  {
    if count == 0 then [] else Dense(start, count - 1) + [start + (count - 1) * SECOND]
  }

  ghost predicate IsTight(admitted: seq<int>, start: int, count: nat) {
    && admitted != []
    && (forall n :: 0 <= n < |admitted| ==> admitted[n] == start + Earliest(n))
    && EarliestSeconds(|admitted| - 1) < count <= EarliestSeconds(|admitted|)
  }

  lemma TightStep(admitted: seq<int>, start: int, count: nat)
    requires IsTight(admitted, start, count)
    ensures var now := start + count * SECOND;
            IsTight(if IsDue(admitted, now) then admitted + [now] else admitted, start, count + 1)
  {
    var k := |admitted|;
    EarliestGrowsByWait(k);
    EarliestGrowsByWait(k + 1);
    assert Last(admitted) == start + Earliest(k - 1);
  }

  // The closed form is attained: on a failure every second, exactly the earliest
  // instants are let through, each as soon as it can be.
  lemma {:induction false} DenseFailuresAttainTheBound(start: int, count: nat)
    requires count > 0
    ensures IsTight(Admitted(Dense(start, count)), start, count)
  {
    var times := Dense(start, count);
    if count == 1 {
      SmallPowers();
      assert Front(times) == [];
      assert Admitted(times) == [start];
    } else {
      DenseFailuresAttainTheBound(start, count - 1);
      assert Front(times) == Dense(start, count - 1);
      TightStep(Admitted(Front(times)), start, count - 1);
    }
  }

  // ---------------------------------------------------------------------------
  // The same of the filter itself
  // ---------------------------------------------------------------------------

  // The instants of one kind that the filter lets through, out of a stream of events
  // of every sort.
  function EnabledTimes(es: seq<Stamped>, kind: string): seq<int> {
    if es == [] then []
    else
      var earlier := EnabledTimes(Front(es), kind);
      if KindOf(Last(es).event) == Some(kind) && IsEnabled(es) then earlier + [Last(es).now] else earlier
  }

  // Over every stream, the filter lets through of each kind what the limit admits.
  lemma {:induction false} FilterAdmitsByLimit(es: seq<Stamped>, kind: string)
    ensures EnabledTimes(es, kind) == Admitted(TimesOf(es, kind))
  {
    if es != [] {
      FilterAdmitsByLimit(Front(es), kind);
      FilterRefinesLimit(es);
      if KindOf(Last(es).event) == Some(kind) {
        var times := TimesOf(Front(es), kind);
        assert Front(times + [Last(es).now]) == times;
      }
    }
  }

  // Over every stream, whatever else it holds and whatever the order of its instants:
  // the filter lets the first failure of a kind through, and the one numbered `n` no
  // earlier than the first by the closed form, nor than the one before by its wait.
  lemma FilterSpacesLines(es: seq<Stamped>, kind: string, n: nat)
    requires n < |EnabledTimes(es, kind)|
    ensures var enabled, times := EnabledTimes(es, kind), TimesOf(es, kind);
            && times != [] && enabled[0] == times[0]
            && enabled[n] >= times[0] + Earliest(n)
            && (n > 0 ==> enabled[n - 1] + Wait(n) <= enabled[n])
  {
    FilterAdmitsByLimit(es, kind);
    AdmissionsAreSpaced(TimesOf(es, kind), n);
  }

  lemma FilterBoundsLines(es: seq<Stamped>, kind: string, n: nat)
    requires n > 0 && forall t :: t in TimesOf(es, kind) ==> t < TimesOf(es, kind)[0] + Earliest(n)
    ensures |EnabledTimes(es, kind)| <= n
  {
    FilterAdmitsByLimit(es, kind);
    LinesAreBounded(TimesOf(es, kind), n);
  }

  // On any stream in which a kind fails every second, the filter lets through exactly
  // its earliest instants.
  lemma FilterAttainsTheBound(es: seq<Stamped>, kind: string, start: int, count: nat)
    requires count > 0 && TimesOf(es, kind) == Dense(start, count)
    ensures IsTight(EnabledTimes(es, kind), start, count)
  {
    FilterAdmitsByLimit(es, kind);
    DenseFailuresAttainTheBound(start, count);
  }
}
