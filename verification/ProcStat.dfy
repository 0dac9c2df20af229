/**
 How long ago the process started, read from the kernel's stat line. The uptime is
 an already parsed duration in nanoseconds, or nothing where it could not be parsed.
 */
module ProcStat {
  import opened BootClock
  import opened Options
  import Digits
  import Logfmt

  const MILLIS_PER_TICK: nat := 10

  // The position of the last `c`, or the length where there is none.
  function LastIndexOf(s: string, c: char): (i: nat)
    ensures i <= |s|
    ensures i < |s| ==> s[i] == c && c !in s[i + 1..]
    ensures i == |s| ==> c !in s
  {
    if s == [] then 0
    else if s[|s| - 1] == c then |s| - 1
    else
      var i := LastIndexOf(s[..|s| - 1], c);
      assert s == s[..|s| - 1] + [s[|s| - 1]];
      if i == |s| - 1 then |s| else
        assert s[i + 1..] == s[..|s| - 1][i + 1..] + [s[|s| - 1]];
        i
  }

  // The length of the longest prefix whose characters are all white space, or none.
  function Span(s: string, white: bool): (n: nat)
    ensures n <= |s|
    ensures forall i :: 0 <= i < n ==> Logfmt.IsWhitespace(s[i]) == white
    ensures n < |s| ==> Logfmt.IsWhitespace(s[n]) != white
  {
    if s == [] || Logfmt.IsWhitespace(s[0]) != white then 0 else 1 + Span(s[1..], white)
  }

  function SplitWhitespace(s: string): seq<string>
    decreases |s|
  {
    var word := s[Span(s, true)..];
    if word == [] then []
    else
      var n := Span(word, false);
      [word[..n]] + SplitWhitespace(word[n..])
  }

  // A decimal number of at most 64 bits, with an optional plus sign.
  function ParseU64(s: string): Option<nat> {
    var digits := if s != [] && s[0] == '+' then s[1..] else s;
    if digits == [] || !Digits.AllDigits(digits, Digits.Ten) || Digits.Read(digits, Digits.Ten) > U64_MAX then None
    else Some(Digits.Read(digits, Digits.Ten))
  }

  function ProcessAgeFrom(stat: string, uptime: Option<nat>): Option<nat> {
    var paren := LastIndexOf(stat, ')');
    if paren == |stat| then None
    else
      AgeFromFields(SplitWhitespace(stat[paren + 1..]), uptime)
  }

  function AgeFromFields(fields: seq<string>, uptime: Option<nat>): Option<nat> {
    if |fields| <= 19 then None
    else
      var ticks := ParseU64(fields[19]);
      if ticks.None? || uptime.None? || ticks.value * MILLIS_PER_TICK > U64_MAX then None
      else
        var age := uptime.value - ticks.value * MILLIS_PER_TICK * NANOS_PER_MILLI;
        if age < 0 then None else Some(age)
  }

  // ---------------------------------------------------------------------------
  // The line the kernel writes
  // ---------------------------------------------------------------------------

  // A field after the command name.
  predicate IsField(s: string) {
    s != "" && forall c :: c in s ==> !Logfmt.IsWhitespace(c) && c != ')'
  }

  function JoinFields(fields: seq<string>): string {
    if fields == [] then "\n" else " " + fields[0] + JoinFields(fields[1..])
  }

  // The command name is written as it is, whatever it holds.
  function StatLine(pid: nat, command: string, fields: seq<string>): string {
    Digits.Print(pid, Digits.Ten) + " (" + command + ")" + JoinFields(fields)
  }

  lemma {:induction false} SpanStops(s: string, rest: string, white: bool)
    requires forall c :: c in s ==> Logfmt.IsWhitespace(c) == white
    requires rest == [] || Logfmt.IsWhitespace(rest[0]) != white
    ensures Span(s + rest, white) == |s|
  {
    if s == [] {
      assert s + rest == rest;
    } else {
      assert s[0] in s;
      assert (s + rest)[1..] == s[1..] + rest;
      SpanStops(s[1..], rest, white);
    }
  }

  lemma JoinedIsSpaced(fields: seq<string>)
    ensures JoinFields(fields) != [] && Logfmt.IsWhitespace(JoinFields(fields)[0])
  {
  }

  lemma FirstFieldSplits(field: string, rest: string)
    requires IsField(field) && rest != [] && Logfmt.IsWhitespace(rest[0])
    ensures SplitWhitespace(" " + (field + rest)) == [field] + SplitWhitespace(rest)
  {
    var word := field + rest;
    var s := " " + word;
    assert field[0] in field;
    SpanStops(" ", word, true);
    assert s[1..] == word;
    SpanStops(field, rest, false);
    assert word[..|field|] == field && word[|field|..] == rest;
  }

  lemma NewlineSplits()
    ensures SplitWhitespace("\n") == []
  {
    SpanStops("\n", "", true);
    assert "\n" + "" == "\n";
  }

  lemma JoinSplitsFirst(fields: seq<string>)
    requires fields != []
    ensures JoinFields(fields) == " " + (fields[0] + JoinFields(fields[1..]))
  {
  }

  lemma {:induction false} FieldsSplit(fields: seq<string>)
    requires forall f :: f in fields ==> IsField(f)
    ensures SplitWhitespace(JoinFields(fields)) == fields
  {
    if fields == [] {
      NewlineSplits();
    } else {
      var rest := JoinFields(fields[1..]);
      FieldsSplit(fields[1..]);
      JoinedIsSpaced(fields[1..]);
      FirstFieldSplits(fields[0], rest);
      JoinSplitsFirst(fields);
      assert fields == [fields[0]] + fields[1..];
    }
  }

  predicate IsGap(s: string) {
    forall c :: c in s ==> Logfmt.IsWhitespace(c)
  }

  predicate IsWord(s: string) {
    s != "" && forall c :: c in s ==> !Logfmt.IsWhitespace(c)
  }

  // Words with white space before each, and after the last.
  function Spaced(gaps: seq<string>, words: seq<string>): string
    requires |gaps| == |words| + 1
  {
    if words == [] then gaps[0] else gaps[0] + (words[0] + Spaced(gaps[1..], words[1..]))
  }

  lemma FirstWordSplits(gap: string, word: string, rest: string)
    requires IsGap(gap) && IsWord(word) && (rest == [] || Logfmt.IsWhitespace(rest[0]))
    ensures SplitWhitespace(gap + (word + rest)) == [word] + SplitWhitespace(rest)
  {
    var tail := word + rest;
    assert word[0] in word && tail[0] == word[0];
    SpanStops(gap, tail, true);
    assert (gap + tail)[|gap|..] == tail;
    SpanStops(word, rest, false);
    assert tail[..|word|] == word && tail[|word|..] == rest;
  }

  predicate AreSpaced(gaps: seq<string>, words: seq<string>) {
    && |gaps| == |words| + 1
    && (forall i :: 0 <= i < |gaps| ==> IsGap(gaps[i]))
    && (forall i :: 0 <= i < |words| ==> IsWord(words[i]))
    && (forall i :: 0 < i < |words| ==> |gaps[i]| > 0)
  }

  lemma RestIsSpaced(gaps: seq<string>, words: seq<string>)
    requires AreSpaced(gaps, words) && words != []
    ensures AreSpaced(gaps[1..], words[1..]) && (|words| > 1 ==> |gaps[1]| > 0)
  {
  }

  // Whatever the white space around and between words, splitting gives the words.
  lemma {:induction false} SpacedWordsSplit(gaps: seq<string>, words: seq<string>)
    requires AreSpaced(gaps, words)
    ensures SplitWhitespace(Spaced(gaps, words)) == words
  {
    if words == [] {
      SpanStops(gaps[0], "", true);
      assert gaps[0] + "" == gaps[0];
    } else {
      var rest := Spaced(gaps[1..], words[1..]);
      RestIsSpaced(gaps, words);
      SpacedWordsSplit(gaps[1..], words[1..]);
      SpacedStartsWithGap(gaps[1..], words[1..]);
      FirstWordSplits(gaps[0], words[0], rest);
      assert words == [words[0]] + words[1..];
    }
  }

  lemma SpacedStartsWithGap(gaps: seq<string>, words: seq<string>)
    requires |gaps| == |words| + 1 && IsGap(gaps[0]) && (words != [] ==> gaps[0] != "")
    ensures Spaced(gaps, words) == "" || Logfmt.IsWhitespace(Spaced(gaps, words)[0])
  {
    assert gaps[0] != "" ==> gaps[0][0] in gaps[0];
  }

  lemma {:induction false} NoParenInJoined(fields: seq<string>)
    requires forall f :: f in fields ==> IsField(f)
    ensures ')' !in JoinFields(fields)
  {
    if fields != [] {
      NoParenInJoined(fields[1..]);
      assert IsField(fields[0]);
    }
  }

  lemma {:induction false} LastParenEndsCommand(before: string, after: string)
    requires ')' !in after
    ensures LastIndexOf(before + ")" + after, ')') == |before|
  {
    var s := before + ")" + after;
    if after == [] {
      assert s[|s| - 1] == ')';
    } else {
      var init := after[..|after| - 1];
      LastParenEndsCommand(before, init);
      assert s[..|s| - 1] == before + ")" + init;
      assert s[|s| - 1] == after[|after| - 1];
    }
  }

  predicate HasAge(fields: seq<string>, uptime: Option<nat>) {
    && |fields| >= 20 && uptime.Some? && ParseU64(fields[19]).Some?
    && ParseU64(fields[19]).value * 10 <= U64_MAX
    && ParseU64(fields[19]).value * 10_000_000 <= uptime.value
  }

  // For every command name, with spaces and unbalanced parentheses, the fields
  // after it are read where they are: there is an age exactly where there is a
  // twentieth field, it is a number, and nothing overflows or falls below zero, and it
  // is the uptime less ten milliseconds a tick.
  lemma CommandNameIsSkipped(pid: nat, command: string, fields: seq<string>, uptime: Option<nat>)
    requires forall f :: f in fields ==> IsField(f)
    ensures var age := ProcessAgeFrom(StatLine(pid, command, fields), uptime);
            && (age.Some? <==> HasAge(fields, uptime))
            && (age.Some? ==> age.value == uptime.value - ParseU64(fields[19]).value * 10_000_000)
  {
    var before, after := Digits.Print(pid, Digits.Ten) + " (" + command, JoinFields(fields);
    NoParenInJoined(fields);
    TextAfterName(before, after, uptime);
    FieldsSplit(fields);
    AgeOfFields(fields, uptime);
  }

  lemma TextAfterName(before: string, after: string, uptime: Option<nat>)
    requires ')' !in after
    ensures ProcessAgeFrom(before + ")" + after, uptime) == AgeFromFields(SplitWhitespace(after), uptime)
  {
    LastParenEndsCommand(before, after);
    assert (before + ")" + after)[|before| + 1..] == after;
  }

  lemma AgeOfFields(fields: seq<string>, uptime: Option<nat>)
    ensures AgeFromFields(fields, uptime).Some? <==> HasAge(fields, uptime)
    ensures HasAge(fields, uptime) ==>
              AgeFromFields(fields, uptime).value == uptime.value - ParseU64(fields[19]).value * 10_000_000
  {
  }

  // A start time the kernel prints reads back, and gives an age exactly while it
  // lies within the uptime.
  lemma PrintedStartReadsBack(pid: nat, command: string, before: seq<string>, ticks: nat, after: seq<string>, uptime: nat)
    requires |before| == 19 && forall f :: f in before + after ==> IsField(f)
    ensures var stat := StatLine(pid, command, before + [Digits.Print(ticks, Digits.Ten)] + after);
            ProcessAgeFrom(stat, Some(uptime)) ==
            if ticks * 10 <= U64_MAX && ticks * 10_000_000 <= uptime then Some(uptime - ticks * 10_000_000) else None
  {
    var field := Digits.Print(ticks, Digits.Ten);
    var fields := before + [field] + after;
    PrintedIsField(ticks);
    FieldsAround(before, field, after);
    CommandNameIsSkipped(pid, command, fields, Some(uptime));
    PrintedIsParsed(ticks);
    AgeOfStart(ProcessAgeFrom(StatLine(pid, command, fields), Some(uptime)), fields, ticks, uptime);
  }

  lemma AgeOfStart(age: Option<nat>, fields: seq<string>, ticks: nat, uptime: nat)
    requires |fields| > 19 && ParseU64(fields[19]) == if ticks <= U64_MAX then Some(ticks) else None
    requires age.Some? <==> HasAge(fields, Some(uptime))
    requires age.Some? ==> age.value == uptime - ParseU64(fields[19]).value * 10_000_000
    ensures age == if ticks * 10 <= U64_MAX && ticks * 10_000_000 <= uptime then Some(uptime - ticks * 10_000_000) else None
  {
  }

  lemma FieldsAround(before: seq<string>, field: string, after: seq<string>)
    requires IsField(field) && forall f :: f in before + after ==> IsField(f)
    ensures var fields := before + [field] + after;
            (forall f :: f in fields ==> IsField(f)) && fields[|before|] == field
  {
    forall f | f in before + [field] + after
      ensures IsField(f)
    {
      assert f in before + after || f == field;
    }
  }

  // Digits alone or after one plus sign are a number, up to the greatest of 64 bits.
  lemma DigitsAreParsed(sign: string, digits: string)
    requires (sign == "" || sign == "+") && digits != ""
    requires forall c :: c in digits ==> '0' <= c <= '9'
    ensures var n := Digits.Read(digits, Digits.Ten);
            ParseU64(sign + digits) == if n <= 18_446_744_073_709_551_615 then Some(n) else None
  {
    assert digits[0] in digits;
    assert sign == "" ==> sign + digits == digits;
    assert sign == "+" ==> (sign + digits)[1..] == digits;
  }

  lemma PrintedIsParsed(n: nat)
    ensures ParseU64(Digits.Print(n, Digits.Ten)) == if n <= U64_MAX then Some(n) else None
  {
    var digits := Digits.Print(n, Digits.Ten);
    Digits.PrintReadsBack(n, Digits.Ten);
    assert digits[0] in digits && Digits.IsDigit(digits[0], Digits.Ten);
  }

  lemma PrintedIsField(n: nat)
    ensures IsField(Digits.Print(n, Digits.Ten))
  {
    forall c | c in Digits.Print(n, Digits.Ten)
      ensures !Logfmt.IsWhitespace(c) && c != ')'
    {
      assert Digits.IsDigit(c, Digits.Ten);
    }
  }

  // Nor is there an age where the start is no number: it holds something other than a
  // digit after an optional plus sign, or no digit.
  lemma NoNumberNoAge(pid: nat, command: string, fields: seq<string>, uptime: Option<nat>)
    requires |fields| > 19 && forall f :: f in fields ==> IsField(f)
    requires var f := fields[19];
             var digits := if f != "" && f[0] == '+' then f[1..] else f;
             digits == "" || exists c :: c in digits && !('0' <= c <= '9')
    ensures ProcessAgeFrom(StatLine(pid, command, fields), uptime) == None
  {
    CommandNameIsSkipped(pid, command, fields, uptime);
  }

  // Without a parenthesis there is no command name to skip.
  lemma NoCommandNoAge(stat: string, uptime: Option<nat>)
    requires ')' !in stat
    ensures ProcessAgeFrom(stat, uptime) == None
  {
    assert forall j :: 0 <= j < |stat| ==> stat[j] != ')';
  }
}
