/** Sequence helpers: the list comprehension `[x for x in s if f(x)]` and the
    notions used to state what it keeps. */
module Seqs {

  /** `t` can be obtained from `s` by deleting elements (order kept). */
  predicate IsSubsequence<T(==)>(t: seq<T>, s: seq<T>)
    decreases |s|
  {
    t == [] || (s != [] && (IsSubsequence(t, s[1..]) || (t[0] == s[0] && IsSubsequence(t[1..], s[1..]))))
  }

  predicate Distinct<T(==)>(s: seq<T>) {
    forall i, j :: 0 <= i < j < |s| ==> s[i] != s[j]
  }

  /** Dropping the head of a sequence without repeats leaves one without the head. */
  lemma DistinctTail<T>(s: seq<T>)
    requires s != [] && Distinct(s)
    ensures Distinct(s[1..]) && s[0] !in s[1..]
  {
    forall j | 0 <= j < |s[1..]| ensures s[1..][j] != s[0] {
      assert s[1..][j] == s[j + 1];
    }
  }

  /** `acc` followed by the elements of `s` it does not hold yet, in order,
      each once: how an outer join lines up labels. */
  function AppendNew<T(==,!new)>(acc: seq<T>, s: seq<T>): (r: seq<T>)
    ensures forall x :: x in r <==> x in acc || x in s
    ensures |acc| <= |r| && r[..|acc|] == acc
    decreases |s|
  {
    if s == [] then acc
    else if s[0] in acc then AppendNew(acc, s[1..])
    else
      var next := acc + [s[0]];
      assert next[..|acc|] == acc;
      AppendNew(next, s[1..])
  }

  /** Appending keeps a sequence free of repeats. */
  lemma {:induction false} AppendNewDistinct<T(!new)>(acc: seq<T>, s: seq<T>)
    ensures Distinct(acc) ==> Distinct(AppendNew(acc, s))
    decreases |s|
  {
    if s != [] && Distinct(acc) {
      if s[0] in acc {
        AppendNewDistinct(acc, s[1..]);
      } else {
        var next := acc + [s[0]];
        assert Distinct(next) by {
          forall i, j | 0 <= i < j < |next| ensures next[i] != next[j] {
            if j == |acc| {
              assert next[i] == acc[i];
            }
          }
        }
        AppendNewDistinct(next, s[1..]);
      }
    }
  }

  /** Appending elements none of which is present yet just concatenates. */
  lemma {:induction false} AppendNewFresh<T(!new)>(acc: seq<T>, s: seq<T>)
    requires Distinct(s) && forall x :: x in s ==> x !in acc
    ensures AppendNew(acc, s) == acc + s
    decreases |s|
  {
    if s != [] {
      DistinctTail(s);
      var next := acc + [s[0]];
      assert s[0] in s;
      forall x | x in s[1..] ensures x !in next {
        assert x in s;
      }
      AppendNewFresh(next, s[1..]);
      assert next + s[1..] == acc + s;
    }
  }

  /** `[x for x in s if f(x)]`: the elements of `s` that satisfy `f`, in their
      order, each as often as it occurs in `s`, and nothing else. */
  function Filter<T(==,!new)>(s: seq<T>, f: T -> bool): (r: seq<T>)
    ensures IsSubsequence(r, s)
    ensures forall x :: x in r <==> x in s && f(x)
    ensures |r| <= |s|
  {
    if s == [] then []
    else
      assert s == [s[0]] + s[1..];
      if f(s[0]) then [s[0]] + Filter(s[1..], f) else Filter(s[1..], f)
  }

  /** Each element is kept exactly as often as it occurs, when it satisfies `f`. */
  lemma {:induction false} FilterCounts<T(!new)>(s: seq<T>, f: T -> bool)
    ensures forall x :: multiset(Filter(s, f))[x] == if f(x) then multiset(s)[x] else 0
  {
    if s != [] {
      FilterCounts(s[1..], f);
      assert s == [s[0]] + s[1..];
    }
  }

  /** The kept and the dropped elements together account for every element. */
  lemma {:induction false} FilterSplit<T(!new)>(s: seq<T>, f: T -> bool, notF: T -> bool)
    requires forall x :: notF(x) == !f(x)
    ensures |Filter(s, f)| + |Filter(s, notF)| == |s|
  {
    if s != [] {
      FilterSplit(s[1..], f, notF);
    }
  }
}
