/**
 The lines a boot timeline writes to stderr, and the reader they are meant for:
 a sequence of `key=value` fields separated by spaces, a value quoted and escaped
 where it could not be read back as it stands.
 */
module Logfmt {
  import opened BootClock
  import opened BootTimeline
  import opened Options
  import Digits

  // The White_Space property of Unicode.
  predicate IsWhitespace(c: char) {
    var u := c as int;
    || 0x9 <= u <= 0xD || u == 0x20 || u == 0x85 || u == 0xA0 || u == 0x1680
    || 0x2000 <= u <= 0x200A || u == 0x2028 || u == 0x2029 || u == 0x202F || u == 0x205F || u == 0x3000
  }

  // The Cc category of Unicode.
  predicate IsControl(c: char) {
    var u := c as int;
    u <= 0x1F || 0x7F <= u <= 0x9F
  }

  predicate IsBareChar(c: char) {
    !IsWhitespace(c) && !IsControl(c) && c != '"' && c != '=' && c != '\\'
  }

  predicate IsBare(value: string) {
    value != "" && forall c :: c in value ==> IsBareChar(c)
  }

  function Escape(c: char): string {
    if c == '"' then "\\\""
    else if c == '\\' then "\\\\"
    else if c == '\n' then "\\n"
    else if IsControl(c) then "\\u{" + Digits.Print(c as int, Digits.Sixteen) + "}"
    else [c]
  }

  function Escaped(value: string): string {
    if value == [] then [] else Escape(value[0]) + Escaped(value[1..])
  }

  function Value(value: string): string {
    if IsBare(value) then value else "\"" + Escaped(value) + "\""
  }

  lemma EscapedSplitsFirst(value: string, i: nat)
    requires i < |value|
    ensures Escaped(value[i..]) == Escape(value[i]) + Escaped(value[i + 1..])
  {
    assert value[i..][0] == value[i] && value[i..][1..] == value[i + 1..];
  }

  lemma AppendIsAssociative(a: string, b: string, c: string)
    ensures (a + b) + c == a + (b + c)
  {
  }

  method PushValue(out: string, value: string) returns (result: string)
    ensures result == out + Value(value)
  {
    result := out;
    if IsBare(value) {
      result := result + value;
      return;
    }
    result := result + "\"";
    ghost var start := result;
    ghost var whole := Escaped(value);
    for i := 0 to |value|
      invariant result + Escaped(value[i..]) == start + whole
    {
      var escape := Escape(value[i]);
      EscapedSplitsFirst(value, i);
      AppendIsAssociative(result, escape, Escaped(value[i + 1..]));
      result := result + escape;
    }
    assert result == start + whole;
    result := result + "\"";
    assert result == out + ("\"" + whole + "\"");
  }

  function OutcomeText(outcome: Outcome): string {
    if outcome.Ok? then "ok" else "failed"
  }

  function OriginText(source: Origin): string {
    if source.ProcessStart? then "process_start" else "first_use"
  }

  function Decimal(n: nat): string {
    Digits.Print(n, Digits.Ten)
  }

  const READY := "ready"

  // An argument of a line: a value to quote where needed, or one written as it is.
  datatype Arg =
    | QuotedArg(value: string)
    | OutcomeArg(outcome: Outcome)
    | MillisArg(duration: nat)
    | OriginArg(source: Origin)
    | MilestoneArg
  {
    function Plain(): string {
      match this
      case QuotedArg(value) => value
      case OutcomeArg(outcome) => OutcomeText(outcome)
      case MillisArg(duration) => Decimal(Millis(duration))
      case OriginArg(source) => OriginText(source)
      case MilestoneArg => READY
    }

    function Written(): string {
      if QuotedArg? then Value(value) else Plain()
    }
  }

  // The pieces of a format string, each followed by its argument.
  function Format(pieces: seq<string>, args: seq<Arg>): string
    requires |pieces| == |args|
  {
    if pieces == [] then "" else pieces[0] + (args[0].Written() + Format(pieces[1..], args[1..]))
  }

  const PHASE_PIECES := ["boot phase=", " outcome=", " took_ms=", " at_ms=", " service="]
  const READY_PIECES := ["boot phase=", " outcome=", " took_ms=", " at_ms=", " origin=", " service="]

  function Pieces(line: Line): seq<string> {
    if line.PhaseLine? then PHASE_PIECES else READY_PIECES
  }

  function Args(line: Line): (args: seq<Arg>)
    ensures |args| == |Pieces(line)|
  {
    match line
    case PhaseLine(phase, service) =>
      [QuotedArg(phase.name), OutcomeArg(phase.outcome), MillisArg(phase.took), MillisArg(phase.at),
       QuotedArg(service)]
    case ReadyLine(at, source, service) =>
      [MilestoneArg, OutcomeArg(Ok), MillisArg(at), MillisArg(at), OriginArg(source), QuotedArg(service)]
  }

  function Render(line: Line): string {
    Format(Pieces(line), Args(line))
  }

  // ---------------------------------------------------------------------------
  // The reader
  // ---------------------------------------------------------------------------

  datatype Field = Field(key: string, value: string)

  // The length of the longest prefix without the separator `stop`.
  function Until(s: string, stop: char): (n: nat)
    ensures n <= |s|
    ensures stop !in s[..n]
    ensures n < |s| ==> s[n] == stop
  {
    if s == [] || s[0] == stop then 0 else 1 + Until(s[1..], stop)
  }

  predicate IsScalar(u: nat) {
    u < 0xD800 || 0xE000 <= u < 0x11_0000
  }

  function Prepend(c: char, rest: Option<(string, string)>): (r: Option<(string, string)>)
  {
    if rest.None? then None else Some(([c] + rest.value.0, rest.value.1))
  }

  // Reads up to the closing quote: the value, and the text after the quote.
  function Unquote(s: string): (r: Option<(string, string)>)
    ensures r.Some? ==> |r.value.1| < |s|
  {
    if s == [] then None
    else if s[0] == '"' then Some(([], s[1..]))
    else if s[0] != '\\' then Prepend(s[0], Unquote(s[1..]))
    else if |s| < 2 then None
    else if s[1] == '"' || s[1] == '\\' then Prepend(s[1], Unquote(s[2..]))
    else if s[1] == 'n' then Prepend('\n', Unquote(s[2..]))
    else if |s| < 3 || s[1] != 'u' || s[2] != '{' then None
    else
      var n := Until(s[3..], '}');
      var digits := s[3..][..n];
      if n == |s[3..]| || !Digits.AllDigits(digits, Digits.Sixteen) || !IsScalar(Digits.Read(digits, Digits.Sixteen)) then None
      else Prepend(Digits.Read(digits, Digits.Sixteen) as char, Unquote(s[4 + n..]))
  }

  // Reads one value: quoted, or bare up to the next space. A bare value is refused
  // where it should have been quoted.
  function ReadValue(s: string): (r: Option<(string, string)>)
    ensures r.Some? ==> |r.value.1| <= |s|
  {
    if s != [] && s[0] == '"' then Unquote(s[1..])
    else
      var value := s[..Until(s, ' ')];
      if value == "" || exists c :: c in value && NeedsQuotes(c) then None
      else Some((value, s[Until(s, ' ')..]))
  }

  // White space, a control character, or one of the three with a meaning of their own.
  predicate NeedsQuotes(c: char) {
    var u := c as int;
    || c == '"' || c == '=' || c == '\\'
    || u <= 0x1F || 0x7F <= u <= 0x9F
    || u == 0x20 || u == 0xA0 || u == 0x1680 || 0x2000 <= u <= 0x200A
    || u == 0x2028 || u == 0x2029 || u == 0x202F || u == 0x205F || u == 0x3000
  }

  function ReadFields(s: string): Option<seq<Field>>
    decreases |s|
  {
    var n := Until(s, '=');
    if n == |s| then None
    else
      var value := ReadValue(s[n + 1..]);
      if value.None? then None
      else if value.value.1 == [] then Some([Field(s[..n], value.value.0)])
      else if value.value.1[0] != ' ' then None
      else
        var rest := ReadFields(value.value.1[1..]);
        if rest.None? then None else Some([Field(s[..n], value.value.0)] + rest.value)
  }

  datatype Report =
    | PhaseReport(name: string, outcome: Outcome, tookMs: nat, atMs: nat, service: string)
    | ReadyReport(ms: nat, source: Origin, service: string)

  function ReadOutcome(s: string): Option<Outcome> {
    if s == "ok" then Some(Ok) else if s == "failed" then Some(Failed) else None
  }

  function ReadOrigin(s: string): Option<Origin> {
    if s == "process_start" then Some(ProcessStart) else if s == "first_use" then Some(FirstUse) else None
  }

  function ReadNumber(s: string): Option<nat> {
    if s != [] && Digits.AllDigits(s, Digits.Ten) then Some(Digits.Read(s, Digits.Ten)) else None
  }

  predicate HasKeys(fields: seq<Field>, keys: seq<string>) {
    |fields| == |keys| && forall i :: 0 <= i < |fields| ==> fields[i].key == keys[i]
  }

  const PHASE_KEYS := ["phase", "outcome", "took_ms", "at_ms", "service"]
  const READY_KEYS := ["phase", "outcome", "took_ms", "at_ms", "origin", "service"]

  function ReadReport(fields: seq<Field>): Option<Report> {
    if HasKeys(fields, PHASE_KEYS) then
      assert |fields| == 5;
      var outcome, took, at := ReadOutcome(fields[1].value), ReadNumber(fields[2].value), ReadNumber(fields[3].value);
      if outcome.Some? && took.Some? && at.Some?
      then Some(PhaseReport(fields[0].value, outcome.value, took.value, at.value, fields[4].value))
      else None
    else if HasKeys(fields, READY_KEYS) && fields[0].value == "ready" && ReadOutcome(fields[1].value) == Some(Ok) then
      assert |fields| == 6;
      var took, at, origin := ReadNumber(fields[2].value), ReadNumber(fields[3].value), ReadOrigin(fields[4].value);
      if took.Some? && at == took && origin.Some?
      then Some(ReadyReport(took.value, origin.value, fields[5].value))
      else None
    else None
  }

  const PREFIX := "boot "

  function ReadLine(s: string): Option<Report> {
    if |s| < |PREFIX| || s[..|PREFIX|] != PREFIX then None
    else
      var fields := ReadFields(s[|PREFIX|..]);
      if fields.None? then None else ReadReport(fields.value)
  }

  // What a line says: durations in milliseconds, everything else verbatim.
  function ReportOf(line: Line): Report {
    match line
    case PhaseLine(phase, service) =>
      PhaseReport(phase.name, phase.outcome, Millis(phase.took), Millis(phase.at), service)
    case ReadyLine(at, source, service) => ReadyReport(Millis(at), source, service)
  }

  // ---------------------------------------------------------------------------
  // Round trip
  // ---------------------------------------------------------------------------

  lemma {:induction false} UntilSplits(s: string, rest: string, stop: char)
    requires stop !in s
    requires rest == [] || rest[0] == stop
    ensures Until(s + rest, stop) == |s|
  {
    if s != [] {
      assert (s + rest)[1..] == s[1..] + rest;
      UntilSplits(s[1..], rest, stop);
    } else {
      assert s + rest == rest;
    }
  }

  lemma HexEscapeReadsBack(digits: string, rest: string)
    requires digits != [] && Digits.AllDigits(digits, Digits.Sixteen)
    requires IsScalar(Digits.Read(digits, Digits.Sixteen))
    ensures Unquote("\\u{" + digits + "}" + rest)
         == Prepend(Digits.Read(digits, Digits.Sixteen) as char, Unquote(rest))
  {
    var s := "\\u{" + digits + "}" + rest;
    assert s[3..] == digits + ("}" + rest);
    UntilSplits(digits, "}" + rest, '}');
    assert s[3..][..|digits|] == digits;
    assert s[4 + |digits|..] == rest;
  }

  // One escape, of any of the four forms, reads back as the character escaped.
  lemma EscapeReadsBack(c: char, rest: string)
    ensures Unquote(Escape(c) + rest) == Prepend(c, Unquote(rest))
  {
    if c == '"' || c == '\\' || c == '\n' {
      assert (Escape(c) + rest)[2..] == rest;
    } else if IsControl(c) {
      var digits := Digits.Print(c as int, Digits.Sixteen);
      Digits.PrintReadsBack(c as int, Digits.Sixteen);
      HexEscapeReadsBack(digits, rest);
      assert Escape(c) + rest == "\\u{" + digits + "}" + rest;
    } else {
      assert (Escape(c) + rest)[1..] == rest;
    }
  }

  lemma {:induction false} EscapedReadsBack(value: string, rest: string)
    ensures Unquote(Escaped(value) + "\"" + rest) == Some((value, rest))
  {
    if value == [] {
      assert (Escaped(value) + "\"" + rest)[1..] == rest;
    } else {
      var tail := Escaped(value[1..]) + "\"" + rest;
      EscapedReadsBack(value[1..], rest);
      EscapedBeforeRest(value, "\"", rest);
      EscapeReadsBack(value[0], tail);
      assert [value[0]] + value[1..] == value;
    }
  }

  lemma EscapedBeforeRest(value: string, quote: string, rest: string)
    requires value != []
    ensures Escaped(value) + quote + rest == Escape(value[0]) + (Escaped(value[1..]) + quote + rest)
  {
    var first, others := Escape(value[0]), Escaped(value[1..]);
    assert Escaped(value) == first + others;
    AppendIsAssociative(first, others, quote);
    AppendIsAssociative(first, others + quote, rest);
  }

  // A value is written as it is exactly where it is not empty and no character of it
  // needs quotes, and in quotes everywhere else.
  lemma QuotedExactlyWhereNeeded(value: string)
    ensures Value(value) == value <==> value != "" && forall c :: c in value ==> !NeedsQuotes(c)
    ensures Value(value) != value ==> |Value(value)| >= 2 && Value(value)[0] == '"' && Value(value)[|Value(value)| - 1] == '"'
  {
    if Value(value) == value && !IsBare(value) {
      assert '"' in Value(value);
      EscapedGrows(value);
    }
  }

  lemma {:induction false} EscapedGrows(value: string)
    ensures |Escaped(value)| >= |value|
  {
    if value != [] {
      EscapedGrows(value[1..]);
    }
  }

  // Inside quotes a plain character stands for itself, and each other one is written in
  // the one way the format has for it.
  lemma EscapesAreThoseOfTheFormat(c: char)
    ensures Escape('"') == ['\\', '"'] && Escape('\\') == ['\\', '\\'] && Escape('\n') == ['\\', 'n']
    ensures var u := c as int;
            c != '"' && c != '\\' && !(u <= 0x1F || 0x7F <= u <= 0x9F) ==> Escape(c) == [c]
    ensures var u, e := c as int, Escape(c);
            c != '\n' && (u <= 0x1F || 0x7F <= u <= 0x9F) ==>
              && |e| > 4 && e[..3] == ['\\', 'u', '{'] && e[|e| - 1] == '}'
              && Digits.AllDigits(e[3..|e| - 1], Digits.Sixteen) && Digits.Read(e[3..|e| - 1], Digits.Sixteen) == u
  {
    var u := c as int;
    if c != '\n' && (u <= 0x1F || 0x7F <= u <= 0x9F) {
      var digits := Digits.Print(u, Digits.Sixteen);
      Digits.PrintReadsBack(u, Digits.Sixteen);
      assert Escape(c)[3..|Escape(c)| - 1] == digits;
    }
  }

  lemma BareReadsBack(value: string, rest: string)
    requires IsBare(value)
    requires rest == [] || rest[0] == ' '
    ensures ReadValue(value + rest) == Some((value, rest))
  {
    var s := value + rest;
    assert IsBareChar(value[0]);
    assert ' ' !in value by {
      assert !IsBareChar(' ');
    }
    UntilSplits(value, rest, ' ');
    assert s[..|value|] == value && s[|value|..] == rest;
  }

  // Any value, printed and followed by the end or a space, reads back verbatim.
  lemma ValueReadsBack(value: string, rest: string)
    requires rest == [] || rest[0] == ' '
    ensures ReadValue(Value(value) + rest) == Some((value, rest))
  {
    if IsBare(value) {
      BareReadsBack(value, rest);
    } else {
      var quoted := Escaped(value) + "\"" + rest;
      assert Value(value) + rest == "\"" + quoted;
      EscapedReadsBack(value, rest);
      assert ("\"" + quoted)[1..] == quoted;
    }
  }

  predicate IsKey(key: string) {
    '=' !in key
  }

  function Join(fields: seq<Field>): string
    requires fields != []
  {
    var first := fields[0].key + "=" + Value(fields[0].value);
    if |fields| == 1 then first else first + " " + Join(fields[1..])
  }

  lemma KeyReadsBack(key: string, text: string, value: string, rest: string)
    requires IsKey(key)
    requires ReadValue(text) == Some((value, rest))
    requires rest == [] || (rest[0] == ' ' && ReadFields(rest[1..]).Some?)
    ensures ReadFields(key + "=" + text)
         == Some(if rest == [] then [Field(key, value)] else [Field(key, value)] + ReadFields(rest[1..]).value)
  {
    var s := key + "=" + text;
    assert s == key + ("=" + text);
    UntilSplits(key, "=" + text, '=');
    assert s[..|key|] == key && s[|key| + 1..] == text;
  }

  lemma OneFieldReadsBack(field: Field)
    requires IsKey(field.key)
    ensures ReadFields(Join([field])) == Some([field])
  {
    var printed := Value(field.value);
    ValueReadsBack(field.value, "");
    assert printed + "" == printed;
    KeyReadsBack(field.key, printed, field.value, "");
  }

  lemma JoinSplitsFirst(field: Field, rest: seq<Field>)
    requires rest != []
    ensures Join([field] + rest) == field.key + "=" + (Value(field.value) + (" " + Join(rest)))
  {
    assert ([field] + rest)[1..] == rest;
  }

  lemma FirstFieldReadsBack(field: Field, rest: seq<Field>)
    requires IsKey(field.key) && rest != [] && ReadFields(Join(rest)) == Some(rest)
    ensures ReadFields(Join([field] + rest)) == Some([field] + rest)
  {
    var printed, next := Value(field.value), " " + Join(rest);
    JoinSplitsFirst(field, rest);
    ValueReadsBack(field.value, next);
    assert next[1..] == Join(rest);
    KeyReadsBack(field.key, printed + next, field.value, next);
  }

  // Any list of fields reads back, keys and values verbatim.
  lemma {:induction false} FieldsReadBack(fields: seq<Field>)
    requires fields != [] && forall f :: f in fields ==> IsKey(f.key)
    ensures ReadFields(Join(fields)) == Some(fields)
  {
    if |fields| == 1 {
      assert fields == [fields[0]];
      OneFieldReadsBack(fields[0]);
    } else {
      assert fields == [fields[0]] + fields[1..];
      FieldsReadBack(fields[1..]);
      FirstFieldReadsBack(fields[0], fields[1..]);
    }
  }

  // ---------------------------------------------------------------------------
  // Lines
  // ---------------------------------------------------------------------------

  function KeysOf(line: Line): seq<string> {
    if line.PhaseLine? then PHASE_KEYS else READY_KEYS
  }

  function Zip(keys: seq<string>, args: seq<Arg>): (fields: seq<Field>)
    requires |keys| == |args|
    ensures HasKeys(fields, keys)
  {
    seq(|keys|, i requires 0 <= i < |keys| => Field(keys[i], args[i].Plain()))
  }

  function FieldsOf(line: Line): seq<Field> {
    Zip(KeysOf(line), Args(line))
  }

  predicate HasNoControl(s: string) {
    forall c :: c in s ==> !IsControl(c)
  }

  lemma KeysAreKeys(line: Line)
    ensures forall key :: key in KeysOf(line) ==> IsKey(key) && HasNoControl(key)
  {
    assert IsKey("phase") && IsKey("outcome") && IsKey("took_ms") && IsKey("at_ms");
    assert IsKey("origin") && IsKey("service");
    assert HasNoControl("phase") && HasNoControl("outcome") && HasNoControl("took_ms") && HasNoControl("at_ms");
    assert HasNoControl("origin") && HasNoControl("service");
  }

  lemma DecimalIsBare(n: nat)
    ensures IsBare(Decimal(n))
  {
    forall c | c in Decimal(n)
      ensures IsBareChar(c)
    {
      assert Digits.IsDigit(c, Digits.Ten);
    }
  }

  predicate IsWord(s: string) {
    s != "" && forall c :: c in s ==> 'a' <= c <= 'z' || c == '_'
  }

  lemma WordIsBare(s: string)
    requires IsWord(s)
    ensures Value(s) == s
  {
  }

  lemma MilestoneIsWord(s: string)
    requires s == READY
    ensures IsWord(s)
  {
  }

  lemma OutcomeIsWord(outcome: Outcome)
    ensures IsWord(OutcomeText(outcome))
  {
  }

  lemma OriginIsWord(source: Origin)
    ensures IsWord(OriginText(source))
  {
  }

  // Whatever is written as it is would not have needed quotes.
  lemma ArgReadsAsWritten(arg: Arg)
    ensures arg.Written() == Value(arg.Plain())
  {
    match arg {
      case QuotedArg(_) =>
      case OutcomeArg(outcome) =>
        OutcomeIsWord(outcome);
        WordIsBare(arg.Plain());
      case MillisArg(duration) => DecimalIsBare(Millis(duration));
      case OriginArg(source) =>
        OriginIsWord(source);
        WordIsBare(arg.Plain());
      case MilestoneArg =>
        MilestoneIsWord(arg.Plain());
        WordIsBare(arg.Plain());
    }
  }

  // `lead` is what separates the first field from the text before it.
  lemma {:induction false} FormatIsJoin(lead: string, pieces: seq<string>, keys: seq<string>, args: seq<Arg>)
    requires |pieces| == |keys| == |args| > 0
    requires pieces[0] == lead + keys[0] + "="
    requires forall i :: 0 < i < |pieces| ==> pieces[i] == " " + keys[i] + "="
    ensures Format(pieces, args) == lead + Join(Zip(keys, args))
    decreases |keys|
  {
    var field, text := Field(keys[0], args[0].Plain()), args[0].Written();
    ArgReadsAsWritten(args[0]);
    if |keys| == 1 {
      FormatOfOne(pieces, args);
      assert Zip(keys, args) == [field];
      LeadAndKey(pieces[0], lead, field.key, text);
    } else {
      FormatIsJoin(" ", pieces[1..], keys[1..], args[1..]);
      var rest := Zip(keys[1..], args[1..]);
      ZipSplitsFirst(keys, args);
      JoinSplitsFirst(field, rest);
      LeadAndKey(pieces[0], lead, field.key, text + (" " + Join(rest)));
    }
  }

  lemma ZipSplitsFirst(keys: seq<string>, args: seq<Arg>)
    requires |keys| == |args| > 0
    ensures Zip(keys, args) == [Field(keys[0], args[0].Plain())] + Zip(keys[1..], args[1..])
  {
  }

  lemma FormatOfOne(pieces: seq<string>, args: seq<Arg>)
    requires |pieces| == |args| == 1
    ensures Format(pieces, args) == pieces[0] + args[0].Written()
  {
    var text := args[0].Written();
    assert Format(pieces[1..], args[1..]) == [];
    assert text + [] == text;
  }

  lemma LeadAndKey(piece: string, lead: string, key: string, text: string)
    requires piece == lead + key + "="
    ensures piece + text == lead + (key + "=" + text)
  {
  }

  lemma PiecesAreKeys(line: Line)
    ensures |Pieces(line)| == |KeysOf(line)| > 0
    ensures Pieces(line)[0] == PREFIX + KeysOf(line)[0] + "="
    ensures forall i :: 0 < i < |Pieces(line)| ==> Pieces(line)[i] == " " + KeysOf(line)[i] + "="
  {
    assert "boot phase=" == PREFIX + "phase" + "=";
    assert " outcome=" == " " + "outcome" + "=";
    assert " took_ms=" == " " + "took_ms" + "=";
    assert " at_ms=" == " " + "at_ms" + "=";
    assert " origin=" == " " + "origin" + "=";
    assert " service=" == " " + "service" + "=";
  }

  lemma RenderIsJoin(line: Line)
    ensures Render(line) == PREFIX + Join(FieldsOf(line))
  {
    PiecesAreKeys(line);
    FormatIsJoin(PREFIX, Pieces(line), KeysOf(line), Args(line));
  }

  lemma NumberReadsBack(n: nat)
    ensures ReadNumber(Decimal(n)) == Some(n)
  {
    Digits.PrintReadsBack(n, Digits.Ten);
  }

  lemma OutcomeReadsBack(outcome: Outcome)
    ensures ReadOutcome(OutcomeText(outcome)) == Some(outcome)
  {
    assert "ok"[0] != "failed"[0];
  }

  lemma OriginReadsBack(source: Origin)
    ensures ReadOrigin(OriginText(source)) == Some(source)
  {
    assert "process_start"[0] != "first_use"[0];
  }

  lemma PhaseReportReadsBack(args: seq<Arg>, name: string, outcome: Outcome, took: nat, at: nat, service: string)
    requires |args| == |PHASE_KEYS|
    requires args[0] == QuotedArg(name) && args[1] == OutcomeArg(outcome) && args[2] == MillisArg(took)
    requires args[3] == MillisArg(at) && args[4] == QuotedArg(service)
    ensures ReadReport(Zip(PHASE_KEYS, args)) == Some(PhaseReport(name, outcome, Millis(took), Millis(at), service))
  {
    OutcomeReadsBack(outcome);
    NumberReadsBack(Millis(took));
    NumberReadsBack(Millis(at));
  }

  lemma ReadyReportReadsBack(args: seq<Arg>, outcome: Outcome, at: nat, source: Origin, service: string)
    requires |args| == |READY_KEYS| && outcome.Ok?
    requires args[0] == MilestoneArg && args[1] == OutcomeArg(outcome) && args[2] == args[3] == MillisArg(at)
    requires args[4] == OriginArg(source) && args[5] == QuotedArg(service)
    ensures ReadReport(Zip(READY_KEYS, args)) == Some(ReadyReport(Millis(at), source, service))
  {
    OutcomeReadsBack(outcome);
    NumberReadsBack(Millis(at));
    OriginReadsBack(source);
  }

  lemma ReportReadsBack(line: Line)
    ensures ReadReport(FieldsOf(line)) == Some(ReportOf(line))
  {
    match line {
      case PhaseLine(phase, service) =>
        PhaseReportReadsBack(Args(line), phase.name, phase.outcome, phase.took, phase.at, service);
      case ReadyLine(at, source, service) => ReadyReportReadsBack(Args(line), Ok, at, source, service);
    }
  }

  // Every line reads back as what it says: names and services verbatim, whatever
  // characters they hold.
  lemma LineReadsBack(line: Line)
    ensures ReadLine(Render(line)) == Some(ReportOf(line))
  {
    RenderIsJoin(line);
    KeysAreKeys(line);
    FieldsReadBack(FieldsOf(line));
    ReportReadsBack(line);
    assert Render(line)[|PREFIX|..] == Join(FieldsOf(line));
  }

  // No phase line, even of a phase named "ready", is a milestone line.
  lemma PhaseLineIsNoMilestone(phase: Phase, service: string, at: nat, source: Origin, owner: string)
    ensures Render(PhaseLine(phase, service)) != Render(ReadyLine(at, source, owner))
  {
    LineReadsBack(PhaseLine(phase, service));
    LineReadsBack(ReadyLine(at, source, owner));
  }

  lemma {:induction false} EscapedHasNoControl(value: string)
    ensures HasNoControl(Escaped(value))
  {
    if value != [] {
      EscapedHasNoControl(value[1..]);
      forall c | c in Escape(value[0])
        ensures !IsControl(c)
      {
        var digits := Digits.Print(value[0] as int, Digits.Sixteen);
        assert c in digits ==> Digits.IsDigit(c, Digits.Sixteen);
      }
    }
  }

  lemma ValueHasNoControl(value: string)
    ensures HasNoControl(Value(value))
  {
    EscapedHasNoControl(value);
  }

  lemma {:induction false} JoinHasNoControl(fields: seq<Field>)
    requires fields != [] && forall f :: f in fields ==> HasNoControl(f.key)
    ensures HasNoControl(Join(fields))
  {
    ValueHasNoControl(fields[0].value);
    if |fields| > 1 {
      JoinHasNoControl(fields[1..]);
    }
  }

  // A line holds no control character, so it is one line.
  lemma RenderedLineHasNoControl(line: Line)
    ensures HasNoControl(Render(line))
  {
    RenderIsJoin(line);
    KeysAreKeys(line);
    FieldKeys(line);
    JoinHasNoControl(FieldsOf(line));
    PrefixHasNoControl(PREFIX, Join(FieldsOf(line)));
  }

  lemma FieldKeys(line: Line)
    ensures forall f :: f in FieldsOf(line) ==> f.key in KeysOf(line)
  {
  }

  lemma PrefixHasNoControl(prefix: string, s: string)
    requires prefix == PREFIX && HasNoControl(s)
    ensures HasNoControl(prefix + s)
  {
  }
}
