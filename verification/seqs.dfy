/** Sequence helpers: removing one element, used where the program drains a
    channel in an arbitrary order or deletes a single row, and reversal,
    used for newest-first lists and for reading a series backwards. */
module Seqs {
  /** Removing one element from the middle of a sequence. */
  function Without<T>(s: seq<T>, k: nat): (r: seq<T>)
    requires k < |s|
    ensures |r| == |s| - 1
  {
    s[..k] + s[k + 1..]
  }

  /** Removing an element removes one copy of it from the multiset. */
  lemma MultisetWithout<T>(s: seq<T>, k: nat)
    requires k < |s|
    ensures multiset(Without(s, k)) == multiset(s) - multiset{s[k]}
  {
    assert s == s[..k] + [s[k]] + s[k + 1..];
  }

  /** Every element other than the removed one is still present, and
      nothing new appears. */
  lemma MembersWithout<T>(s: seq<T>, k: nat)
    requires k < |s|
    ensures forall x :: x in Without(s, k) ==> x in s
    ensures forall x :: x in s && x !in Without(s, k) ==> x == s[k]
  {
    var w := Without(s, k);
    MultisetWithout(s, k);
    forall x | x in w ensures x in s {
      assert x in multiset(w);
    }
    forall x | x in s && x !in w ensures x == s[k] {
      assert x in multiset(s);
    }
  }

  /** The sequence read from its far end. */
  function Reverse<T>(s: seq<T>): (r: seq<T>)
    ensures |r| == |s|
  {
    if s == [] then [] else Reverse(s[1..]) + [s[0]]
  }

  /** The reversal reads the list from its far end. */
  lemma {:induction false} ReverseAt<T>(s: seq<T>)
    ensures forall i :: 0 <= i < |s| ==> Reverse(s)[i] == s[|s| - 1 - i]
  {
    if s != [] {
      ReverseAt(s[1..]);
    }
  }
}
