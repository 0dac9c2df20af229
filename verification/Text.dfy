// Searching and trimming text.
module Text {
  import opened Sequences

  predicate Contains(s: string, word: string) {
    word <= s || (s != [] && Contains(s[1..], word))
  }

  ghost predicate IsAt(s: string, word: string, i: nat) {
    i + |word| <= |s| && s[i..i + |word|] == word
  }

  lemma PrefixIsAtStart(s: string, word: string)
    ensures IsAt(s, word, 0) <==> word <= s
  {
  }

  lemma IsAtShifted(s: string, word: string, i: nat)
    requires s != []
    ensures IsAt(s, word, i + 1) <==> IsAt(s[1..], word, i)
  {
    if i + 1 + |word| <= |s| {
      assert s[1..][i..i + |word|] == s[i + 1..i + 1 + |word|];
    }
  }

  ghost predicate IsSubstring(s: string, word: string) {
    exists i: nat :: IsAt(s, word, i)
  }

  lemma SubstringOfRest(s: string, word: string)
    requires s != []
    ensures IsSubstring(s, word) <==> word <= s || IsSubstring(s[1..], word)
  {
    PrefixIsAtStart(s, word);
    if IsSubstring(s[1..], word) {
      var i: nat :| IsAt(s[1..], word, i);
      IsAtShifted(s, word, i);
    }
    if i: nat :| IsAt(s, word, i) {
      if i > 0 {
        IsAtShifted(s, word, i - 1);
      }
    }
  }

  lemma {:induction false} ContainsIsSubstring(s: string, word: string)
    ensures Contains(s, word) <==> IsSubstring(s, word)
  {
    if s == [] {
      PrefixIsAtStart(s, word);
    } else {
      ContainsIsSubstring(s[1..], word);
      SubstringOfRest(s, word);
    }
  }

  function TrimStart(s: string, c: char): (t: string)
    ensures t == [] || t[0] != c
    ensures |t| <= |s| && s[|s| - |t|..] == t
    ensures forall i :: 0 <= i < |s| - |t| ==> s[i] == c
  {
    if s != [] && s[0] == c then TrimStart(s[1..], c) else s
  }

  function TrimEnd(s: string, c: char): (t: string)
    ensures t == [] || Last(t) != c
    ensures t <= s
    ensures forall i :: |t| <= i < |s| ==> s[i] == c
  {
    if s != [] && Last(s) == c then TrimEnd(Front(s), c) else s
  }

  // Every `c` at either end goes, and nothing else.
  function TrimMatches(s: string, c: char): (t: string)
    ensures t != [] ==> t[0] != c && Last(t) != c
    ensures exists i: nat :: IsTrimmed(s, t, c, i)
  {
    var start := TrimStart(s, c);
    var t := TrimEnd(start, c);
    TrimmedAt(s, start, t, c);
    t
  }

  ghost predicate IsTrimmed(s: string, t: string, c: char, i: nat) {
    IsAt(s, t, i) && forall j :: 0 <= j < |s| && (j < i || i + |t| <= j) ==> s[j] == c
  }

  lemma TrimmedAt(s: string, start: string, t: string, c: char)
    requires |start| <= |s| && s[|s| - |start|..] == start
    requires forall i :: 0 <= i < |s| - |start| ==> s[i] == c
    requires t <= start && forall i :: |t| <= i < |start| ==> start[i] == c
    ensures IsTrimmed(s, t, c, |s| - |start|)
  {
    var i := |s| - |start|;
    assert s[i..i + |t|] == start[..|t|];
    forall j | i + |t| <= j < |s|
      ensures s[j] == c
    {
      assert s[j] == start[j - i];
    }
  }
}
