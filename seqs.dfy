/** Sequence identities, stated once over any element type so that proofs
    about heavy element functions can use them without unfolding those. */
module Seqs {

  lemma HeadRest<T>(s: seq<T>)
    requires s != []
    ensures [s[0]] + s[1..] == s
  {
  }

  lemma FrontLast<T>(s: seq<T>)
    requires s != []
    ensures s[..|s| - 1] + [s[|s| - 1]] == s
  {
  }

  lemma TakeSnoc<T>(s: seq<T>, i: nat)
    requires i < |s|
    ensures s[..i + 1] == s[..i] + [s[i]]
  {
  }

  lemma DropCons<T>(s: seq<T>, i: nat)
    requires i < |s|
    ensures s[i..] == [s[i]] + s[i + 1..]
  {
  }

  lemma SplitAt<T>(s: seq<T>, k: nat)
    requires k < |s|
    ensures s == s[..k] + [s[k]] + s[k + 1..]
  {
  }

  lemma TakeAll<T>(s: seq<T>)
    ensures s[..|s|] == s
  {
  }

  lemma SliceFront<T>(s: seq<T>, from: nat, i: nat)
    requires from <= i < |s|
    ensures var t := s[from..i + 1]; t != [] && t[..|t| - 1] == s[from..i] && t[|t| - 1] == s[i]
  {
  }

  lemma TakeFront<T>(s: seq<T>, i: nat)
    requires i < |s|
    ensures var t := s[..i + 1]; t != [] && t[..|t| - 1] == s[..i] && t[|t| - 1] == s[i]
  {
  }

  lemma SliceCons<T>(s: seq<T>, i: nat, k: nat)
    requires i < k <= |s|
    ensures s[i..k] == [s[i]] + s[i + 1..k]
  {
  }
}
