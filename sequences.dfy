/** Small facts about slicing and joining sequences, stated once so that
    the decoding proofs can use them without re-deriving them. */
module Sequences {

  lemma Associate<T>(a: seq<T>, b: seq<T>, c: seq<T>)
    ensures a + b + c == a + (b + c)
    ensures (a + b + c)[|a|..] == b + c
  {
  }

  lemma SliceOfSuffix<T>(s: seq<T>, a: nat, b: nat, c: nat)
    requires a + c <= |s| && b <= c
    ensures s[a..][b..c] == s[a + b..a + c]
  {
  }

  lemma AppendEmpty<T>(a: seq<T>)
    ensures a + [] == a
  {}

  lemma DropLastOfAppend<T>(a: seq<T>, b: seq<T>)
    requires b != []
    ensures a + b != []
    ensures (a + b)[..|a + b| - 1] == a + b[..|b| - 1]
    ensures (a + b)[|a + b| - 1] == b[|b| - 1]
  {
    assert (a + b)[..|a + b| - 1] == a + b[..|b| - 1];
  }

  lemma SplitAt<T>(s: seq<T>, i: nat)
    requires i <= |s|
    ensures s[..i] + s[i..] == s
    ensures s[..|s|] == s
  {
  }

  lemma PrefixStep<T>(s: seq<T>, j: nat)
    requires j < |s|
    ensures s[..j + 1] != [] && s[..j + 1][..j] == s[..j] && s[..j + 1][j] == s[j]
  {
  }

  lemma PrefixSplit<T>(s: seq<T>, i: nat, j: nat)
    requires i <= j <= |s|
    ensures s[..j] == s[..i] + s[i..j]
  {
  }
}
