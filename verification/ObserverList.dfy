/** The ordered observer list of an observable and the one removal it supports.
    Removal behaves as List<T>.Remove of the .NET base class library: find the
    index of the first element equal to the argument (IndexOf) and, if there is
    one, delete the element at that index (RemoveAt); otherwise change nothing.
    Equality of the element type stands for the default equality List<T>.Remove
    uses (Object.Equals for observers: reference identity unless an observer
    class overrides it). */
module ObserverList {

  /** Index of the first element of s equal to x, or |s| when x does not occur. */
  function FirstIndex<O(==)>(s: seq<O>, x: O): (i: nat)
    ensures i <= |s|
    ensures i < |s| ==> s[i] == x
    ensures x !in s[..i]
    ensures i == |s| <==> x !in s
  {
    if s == [] then 0
    else if s[0] == x then 0
    else
      var j := FirstIndex(s[1..], x);
      assert s[1..][..j] == s[1..j + 1];
      assert s[..j + 1] == [s[0]] + s[1..][..j];
      1 + j
  }

  /** s with its first occurrence of x deleted; s itself when x does not occur. */
  function RemoveFirst<O(==)>(s: seq<O>, x: O): (r: seq<O>)
    ensures x !in s ==> r == s
    ensures x in s ==> |r| == |s| - 1
  {
    var i := FirstIndex(s, x);
    if i == |s| then s else s[..i] + s[i + 1..]
  }

  /** r can be obtained from s by deleting elements, so the elements of r
      appear in s in the same relative order. */
  ghost predicate IsSubsequence<O>(r: seq<O>, s: seq<O>)
    decreases |s|
  {
    if r == [] then true
    else if s == [] then false
    else (r[0] == s[0] && IsSubsequence(r[1..], s[1..])) || IsSubsequence(r, s[1..])
  }

  /** Removal seen element by element: the entries before the removed one keep
      their positions, the entries after it move up by one place. */
  lemma RemoveFirstAt<O>(s: seq<O>, x: O, j: nat)
    requires x in s
    requires j < |s| - 1
    ensures j < FirstIndex(s, x) ==> RemoveFirst(s, x)[j] == s[j] && s[j] != x
    ensures j >= FirstIndex(s, x) ==> RemoveFirst(s, x)[j] == s[j + 1]
  {
    var i := FirstIndex(s, x);
    if j < i {
      assert s[j] in s[..i];
    }
  }

  /** The recursive reading of removal: skip leading entries that differ from x
      and drop the first one that equals it. */
  lemma RemoveFirstCons<O>(s: seq<O>, x: O)
    requires s != []
    ensures RemoveFirst(s, x) == if s[0] == x then s[1..] else [s[0]] + RemoveFirst(s[1..], x)
  {
    if s[0] != x {
      var i := FirstIndex(s[1..], x);
      if i == |s[1..]| {
        assert x !in s by {
          assert s == [s[0]] + s[1..];
        }
      } else {
        assert x in s by {
          assert s[1..][i] == x;
          assert s[i + 1] == x;
        }
        var r := RemoveFirst(s, x);
        var t := [s[0]] + RemoveFirst(s[1..], x);
        assert |r| == |t|;
        forall j | 0 <= j < |r|
          ensures r[j] == t[j]
        {
          RemoveFirstAt(s, x, j);
          if j > 0 {
            RemoveFirstAt(s[1..], x, j - 1);
          }
        }
      }
    }
  }

  /** Removal deletes one copy of x, and only of x: the multiset of the list
      loses exactly one x when x is present and is unchanged otherwise. */
  lemma RemoveFirstMultiset<O>(s: seq<O>, x: O)
    ensures multiset(RemoveFirst(s, x)) == multiset(s) - multiset{x}
    ensures x in s ==> multiset(RemoveFirst(s, x))[x] == multiset(s)[x] - 1
    ensures forall y :: y != x ==> multiset(RemoveFirst(s, x))[y] == multiset(s)[y]
  {
    var i := FirstIndex(s, x);
    if i < |s| {
      assert s == s[..i] + [s[i]] + s[i + 1..];
      assert multiset(s) == multiset(s[..i]) + multiset{x} + multiset(s[i + 1..]);
    }
  }

  /** Removal keeps the relative order of the remaining entries. */
  lemma {:induction false} RemoveFirstIsSubsequence<O>(s: seq<O>, x: O)
    ensures IsSubsequence(RemoveFirst(s, x), s)
    decreases |s|
  {
    if s != [] {
      RemoveFirstCons(s, x);
      if s[0] == x {
        IsSubsequenceOfItself(s[1..]);
      } else {
        RemoveFirstIsSubsequence(s[1..], x);
      }
    }
  }

  lemma {:induction false} IsSubsequenceOfItself<O>(s: seq<O>)
    ensures IsSubsequence(s, s)
    decreases |s|
  {
    if s != [] {
      IsSubsequenceOfItself(s[1..]);
    }
  }

  /** The first index is determined by its two defining facts. */
  lemma FirstIndexUnique<O>(s: seq<O>, x: O, i: nat)
    requires i < |s| && s[i] == x && x !in s[..i]
    ensures FirstIndex(s, x) == i
  {
  }

  /** Round trip of subscribe and release for a fresh observer: appending x to
      a list without x and then removing x gives back the list exactly. */
  lemma AppendThenRemoveAbsent<O>(s: seq<O>, x: O)
    requires x !in s
    ensures RemoveFirst(s + [x], x) == s
  {
    assert (s + [x])[..|s|] == s;
  }

  /** When x is already present, appending another x and then removing x
      deletes the EARLIEST copy, not the one just appended. */
  lemma AppendThenRemovePresent<O>(s: seq<O>, x: O)
    requires x in s
    ensures RemoveFirst(s + [x], x) == RemoveFirst(s, x) + [x]
  {
    var t := s + [x];
    var i := FirstIndex(s, x);
    assert t[..i] == s[..i];
    FirstIndexUnique(t, x, i);
    assert t[i + 1..] == s[i + 1..] + [x];
  }

  /** In every case appending x and then removing x restores the multiset of
      the list: the same observers, each as often as before. */
  lemma AppendThenRemoveMultiset<O>(s: seq<O>, x: O)
    ensures multiset(RemoveFirst(s + [x], x)) == multiset(s)
  {
    RemoveFirstMultiset(s + [x], x);
    assert multiset(s + [x]) == multiset(s) + multiset{x};
  }
}
