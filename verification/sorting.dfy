/** sort.Slice as the services use it: some order-respecting permutation; equal elements may swap. */
module Sorting {

  ghost predicate TotalPreorder<T(!new)>(le: (T, T) -> bool) {
    && (forall a, b :: le(a, b) || le(b, a))
    && (forall a, b, c :: le(a, b) && le(b, c) ==> le(a, c))
  }

  ghost predicate SortedBy<T>(le: (T, T) -> bool, s: seq<T>) {
    forall i, j :: 0 <= i < j < |s| ==> le(s[i], s[j])
  }

  lemma InsertSorted<T(!new)>(le: (T, T) -> bool, s: seq<T>, i: nat, x: T)
    requires TotalPreorder(le) && SortedBy(le, s) && i <= |s|
    requires i > 0 ==> le(s[i - 1], x)
    requires i < |s| ==> le(x, s[i])
    ensures SortedBy(le, s[..i] + [x] + s[i..])
  {
  }

  lemma InsertMembers<T>(s: seq<T>, i: nat, x: T)
    requires i <= |s|
    ensures multiset(s[..i] + [x] + s[i..]) == multiset(s) + multiset{x}
  {
    assert s == s[..i] + s[i..];
  }

  lemma OneMoreMember<T>(s: seq<T>, n: nat)
    requires n < |s|
    ensures multiset(s[..n + 1]) == multiset(s[..n]) + multiset{s[n]}
  {
    assert s[..n + 1] == s[..n] + [s[n]];
  }

  method Sort<T(!new)>(le: (T, T) -> bool, s: seq<T>) returns (out: seq<T>)
    requires TotalPreorder(le)
    ensures SortedBy(le, out) && multiset(out) == multiset(s)
  {
    out := [];
    for n := 0 to |s|
      invariant SortedBy(le, out) && multiset(out) == multiset(s[..n])
    {
      var x, i := s[n], |out|;
      while i > 0 && !le(out[i - 1], x)
        invariant 0 <= i <= |out|
        invariant i < |out| ==> le(x, out[i])
      {
        i := i - 1;
      }
      InsertSorted(le, out, i, x);
      InsertMembers(out, i, x);
      OneMoreMember(s, n);
      out := out[..i] + [x] + out[i..];
    }
    assert s[..|s|] == s;
  }

  lemma HeadAndTail<T>(s: seq<T>)
    requires s != []
    ensures multiset(s[1..]) == multiset(s) - multiset{s[0]}
  {
    assert s == [s[0]] + s[1..];
  }

  lemma SameHead<T(!new)>(le: (T, T) -> bool, s: seq<T>, t: seq<T>)
    requires s != [] && t != [] && SortedBy(le, s) && SortedBy(le, t) && t[0] in s && s[0] in t
    requires forall i, j :: 0 <= i < j < |s| ==> !le(s[j], s[i])
    ensures s[0] == t[0]
  {
  }

  /** When no two elements tie, the sorted permutation is unique. */
  lemma {:induction false} SortUnique<T(!new)>(le: (T, T) -> bool, s: seq<T>, t: seq<T>)
    requires SortedBy(le, s) && SortedBy(le, t) && multiset(s) == multiset(t)
    requires forall i, j :: 0 <= i < j < |s| ==> !le(s[j], s[i])
    ensures s == t
  {
    assert |s| == |multiset(s)| == |multiset(t)| == |t|;
    if s == [] {
    } else {
      assert t[0] in multiset(t) && s[0] in multiset(s);
      SameHead(le, s, t);
      HeadAndTail(s);
      HeadAndTail(t);
      SortUnique(le, s[1..], t[1..]);
    }
  }

  lemma PermutationMembers<T>(s: seq<T>, t: seq<T>)
    requires multiset(s) == multiset(t)
    ensures |s| == |t| && forall x :: x in s <==> x in t
  {
    assert |s| == |multiset(s)| == |multiset(t)| == |t|;
    forall x
      ensures x in s <==> x in t
    {
      assert x in s <==> x in multiset(s);
      assert x in t <==> x in multiset(t);
    }
  }

  ghost predicate NoRepeats<T(!new)>(s: seq<T>) {
    forall i, j :: 0 <= i < j < |s| ==> s[i] != s[j]
  }

  lemma OnceEach<T(!new)>(s: seq<T>, x: T)
    requires NoRepeats(s)
    ensures multiset(s)[x] == if x in s then 1 else 0
  {
    if x in s {
      var i :| 0 <= i < |s| && s[i] == x;
      assert s == s[..i] + [x] + s[i + 1..];
      assert x !in s[..i] && x !in s[i + 1..];
    }
  }

  /** Sequences without repeats that have the same members are permutations of each other. */
  lemma SameMembersPermutation<T(!new)>(s: seq<T>, t: seq<T>)
    requires NoRepeats(s) && NoRepeats(t) && forall x :: x in s <==> x in t
    ensures multiset(s) == multiset(t)
  {
    forall x
      ensures multiset(s)[x] == multiset(t)[x]
    {
      OnceEach(s, x);
      OnceEach(t, x);
    }
  }

  /** A permutation of a sequence without repeats has none. */
  lemma PermutationNoRepeats<T(!new)>(s: seq<T>, t: seq<T>)
    requires NoRepeats(s) && multiset(s) == multiset(t)
    ensures NoRepeats(t)
  {
    forall i, j | 0 <= i < j < |t|
      ensures t[i] != t[j]
    {
      OnceEach(s, t[i]);
      assert t == t[..i] + [t[i]] + t[i + 1..j] + [t[j]] + t[j + 1..];
    }
  }
}
