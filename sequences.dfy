/** Facts about sequences shared by the letter rules and the theme table. */
module Sequences {

  /** No element occurs twice. */
  predicate Distinct<T(==)>(s: seq<T>)
  {
    forall i, j :: 0 <= i < j < |s| ==> s[i] != s[j]
  }

  /** The element at position i occurs at some other position too. */
  predicate RepeatedAt<T(==)>(s: seq<T>, i: nat)
    requires i < |s|
  {
    exists j :: 0 <= j < |s| && j != i && s[j] == s[i]
  }
}
