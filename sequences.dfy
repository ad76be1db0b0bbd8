/** Small facts about sequences that the proofs use as steps. */
module Sequences {

  /** A prefix one longer is the prefix and the next element. */
  lemma TakeSnoc<T>(s: seq<T>, i: nat)
    requires i < |s|
    ensures s[..i + 1] == s[..i] + [s[i]]
  {
  }

  /** Moving the first remaining element, the one at index |done|, to the visited ones. */
  lemma ShiftAt<T>(done: seq<T>, rest: seq<T>)
    requires rest != []
    ensures (done + rest)[|done|] == rest[0]
    ensures (done + [rest[0]]) + rest[1..] == done + rest
  {
  }

  lemma Concat3<T>(a: seq<T>, b: seq<T>, c: seq<T>, d: seq<T>)
    ensures a + b + c + d == a + (b + c + d)
  {
  }

  /** A non-empty sequence after `done` is its front and its last element. */
  lemma SnocSplit<T>(done: seq<T>, rest: seq<T>)
    requires rest != []
    ensures done + rest == (done + rest[..|rest| - 1]) + [rest[|rest| - 1]]
  {
  }

  /** A sequence around its element at index i. */
  lemma Split<T>(s: seq<T>, i: nat)
    requires i < |s|
    ensures s == s[..i] + ([s[i]] + s[i + 1..])
    ensures s == (s[..i] + [s[i]]) + s[i + 1..]
  {
  }

  lemma TakeDrop<T>(s: seq<T>, i: nat)
    requires i <= |s|
    ensures s == s[..i] + s[i..]
  {
  }

  /** A non-empty sequence is its front and its last element. */
  lemma Unsnoc<T>(s: seq<T>)
    requires s != []
    ensures s == s[..|s| - 1] + [s[|s| - 1]]
  {
  }
}
