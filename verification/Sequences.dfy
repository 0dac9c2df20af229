// The parts of a sequence.
module Sequences {
  function Front<T>(s: seq<T>): seq<T>
    requires s != []
  {
    s[..|s| - 1]
  }

  function Last<T>(s: seq<T>): T
    requires s != []
  {
    s[|s| - 1]
  }

  function Min(a: nat, b: nat): nat {
    if a <= b then a else b
  }

  // The first `n` elements, or all where there are fewer.
  function Take<T>(n: nat, s: seq<T>): seq<T> {
    s[..Min(n, |s|)]
  }
}
