/** An activity's roster: the ordered list of participant emails, oldest signup first.
    The directory mutates rosters only by appending and by Python's `list.remove`,
    which deletes the first occurrence of a value. */
module Roster {

  /** No email appears twice in the roster. */
  predicate NoDup<T(==)>(s: seq<T>)
  {
    forall i, j :: 0 <= i < j < |s| ==> s[i] != s[j]
  }

  /** Position of the first occurrence of `e` in `s`. */
  function IndexOf<T(==)>(s: seq<T>, e: T): (i: nat)
    requires e in s
    ensures i < |s| && s[i] == e
    ensures forall j :: 0 <= j < i ==> s[j] != e
  {
    if s[0] == e then 0 else 1 + IndexOf(s[1..], e)
  }

  /** `list.remove(e)`: deletes the first occurrence of `e`, keeping the order of the
      rest; a roster without `e` is returned as it is (the caller checks membership
      first, so Python's ValueError never arises). */
  function RemoveFirst<T(==)>(s: seq<T>, e: T): (r: seq<T>)
    ensures e !in s ==> r == s
    ensures e in s ==> |r| == |s| - 1
    ensures e in s ==> forall k :: 0 <= k < IndexOf(s, e) ==> r[k] == s[k]
    ensures e in s ==> forall k :: IndexOf(s, e) <= k < |r| ==> r[k] == s[k + 1]
  {
    if |s| == 0 then []
    else if s[0] == e then s[1..]
    else
      var t := s[1..];
      assert s == [s[0]] + t;
      assert e in s ==> e in t && IndexOf(s, e) == IndexOf(t, e) + 1;
      [s[0]] + RemoveFirst(t, e)
  }

  /** Removal takes away exactly one copy of `e` when there is one, and nothing else. */
  lemma {:induction false} RemoveFirstMultiset<T>(s: seq<T>, e: T)
    ensures multiset(RemoveFirst(s, e)) == multiset(s) - multiset{e}
  {
    if |s| > 0 {
      var t := s[1..];
      assert s == [s[0]] + t;
      assert multiset(s) == multiset{s[0]} + multiset(t);
      if s[0] != e {
        RemoveFirstMultiset(t, e);
        assert RemoveFirst(s, e) == [s[0]] + RemoveFirst(t, e);
      }
    }
  }

  /** Appending an email that is not yet listed keeps the roster duplicate-free, and
      the email is then listed exactly once, after everyone already there. */
  lemma AppendFresh<T>(s: seq<T>, e: T)
    requires NoDup(s) && e !in s
    ensures NoDup(s + [e])
    ensures multiset(s + [e])[e] == 1
    ensures (s + [e])[..|s|] == s
  {
  }

  /** Removing from a duplicate-free roster keeps it duplicate-free, and the removed
      email is then gone entirely. */
  lemma RemoveFromNoDup<T>(s: seq<T>, e: T)
    requires NoDup(s)
    ensures NoDup(RemoveFirst(s, e))
    ensures e !in RemoveFirst(s, e)
  {
  }

  /** Removing an email just appended to a roster that did not hold it gives back the
      original roster, order included. */
  lemma RemoveAppended<T>(s: seq<T>, e: T)
    requires e !in s
    ensures RemoveFirst(s + [e], e) == s
  {
  }
}
