/** Optional values, and a few facts about the built-in collections that several modules need. */
module Basics {
  /** What the source writes as `None` or a value. */
  datatype Option<+T> = None | Some(value: T)

  ghost function Pick<T>(s: set<T>): (x: T)
    requires s != {}
    ensures x in s
  {
    var x :| x in s; x
  }

  function Without<T>(s: seq<T>, k: nat): seq<T>
    requires k < |s|
  {
    s[..k] + s[k + 1..]
  }

  lemma {:induction false} WithoutMultiset<T>(s: seq<T>, k: nat)
    requires k < |s|
    ensures multiset(s) == multiset(Without(s, k)) + multiset{s[k]}
  {
    assert s == s[..k] + [s[k]] + s[k + 1..];
  }

  lemma {:induction false} AppendAssoc<T>(a: seq<T>, b: seq<T>, c: seq<T>)
    ensures a + (b + c) == a + b + c
  {
  }

  /** Dropping an element of the larger side of an inclusion that the smaller side does not need. */
  lemma {:induction false} SubMultisetRest<T>(small: multiset<T>, large: multiset<T>, x: T)
    requires small + multiset{x} <= large + multiset{x}
    ensures small <= large
  {
    forall y | y in small
      ensures small[y] <= large[y]
    {
      assert (small + multiset{x})[y] <= (large + multiset{x})[y];
    }
  }
}
