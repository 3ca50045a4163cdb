/** Generic facts about sequences and sets used across the pipeline. */
module Sequences {
  import opened Wrappers

  /** No element occurs twice. */
  predicate Distinct<T(==)>(s: seq<T>) {
    forall i, j :: 0 <= i < j < |s| ==> s[i] != s[j]
  }

  /** `sub` keeps some elements of `s`, in order. */
  predicate IsSubsequence<T(==)>(sub: seq<T>, s: seq<T>)
    decreases |s|
  {
    sub == [] ||
    (s != [] && ((sub[0] == s[0] && IsSubsequence(sub[1..], s[1..])) || IsSubsequence(sub, s[1..])))
  }

  lemma {:induction false} SubsequenceElements<T>(sub: seq<T>, s: seq<T>)
    requires IsSubsequence(sub, s)
    ensures forall x :: x in sub ==> x in s
    decreases |s|
  {
    if sub != [] {
      if sub[0] == s[0] && IsSubsequence(sub[1..], s[1..]) {
        SubsequenceElements(sub[1..], s[1..]);
        assert sub == [sub[0]] + sub[1..] && s == [s[0]] + s[1..];
      } else {
        SubsequenceElements(sub, s[1..]);
        assert s == [s[0]] + s[1..];
      }
    }
  }

  lemma {:induction false} SubsequenceOfDistinct<T>(sub: seq<T>, s: seq<T>)
    requires IsSubsequence(sub, s) && Distinct(s)
    ensures Distinct(sub)
    decreases |s|
  {
    if sub != [] {
      if sub[0] == s[0] && IsSubsequence(sub[1..], s[1..]) {
        SubsequenceOfDistinct(sub[1..], s[1..]);
        SubsequenceElements(sub[1..], s[1..]);
        forall i, j | 0 <= i < j < |sub| ensures sub[i] != sub[j] {
          if i == 0 {
            assert sub[j] in s[1..] by { assert sub[j] == sub[1..][j - 1]; }
            forall k | 0 <= k < |s| - 1 ensures s[1..][k] != s[0] {
              assert s[1..][k] == s[k + 1];
            }
          } else {
            assert sub[i] == sub[1..][i - 1] && sub[j] == sub[1..][j - 1];
          }
        }
      } else {
        SubsequenceOfDistinct(sub, s[1..]);
      }
    }
  }

  /** A subset is no larger than its superset. */
  lemma {:induction false} SubsetCardinality<T>(a: set<T>, b: set<T>)
    requires a <= b
    ensures |a| <= |b|
    decreases a
  {
    if a != {} {
      var x :| x in a;
      SubsetCardinality(a - {x}, b - {x});
    }
  }

  /** The distinct elements of `s`, in order of first appearance (the keys
      of a dict filled from `s`, in insertion order). */
  function FirstSeen<T(==)>(s: seq<T>): seq<T> {
    if s == [] then []
    else
      var seen := FirstSeen(s[..|s| - 1]);
      if s[|s| - 1] in seen then seen else seen + [s[|s| - 1]]
  }

  lemma {:induction false} FirstSeenShape<T>(s: seq<T>)
    ensures Distinct(FirstSeen(s))
    ensures forall x :: x in FirstSeen(s) <==> x in s
  {
    if s != [] {
      var init := s[..|s| - 1];
      FirstSeenShape(init);
      assert s == init + [s[|s| - 1]];
    }
  }

  lemma {:induction false} DistinctCounts<T>(s: seq<T>, x: T)
    requires Distinct(s)
    ensures multiset(s)[x] <= 1
  {
    if s != [] {
      assert Distinct(s[1..]) by {
        forall i, j | 0 <= i < j < |s[1..]| ensures s[1..][i] != s[1..][j] {
          assert s[1..][i] == s[i + 1] && s[1..][j] == s[j + 1];
        }
      }
      DistinctCounts(s[1..], x);
      assert s == [s[0]] + s[1..];
      if x == s[0] {
        forall k | 0 <= k < |s[1..]| ensures s[1..][k] != x {
          assert s[1..][k] == s[k + 1];
        }
        assert x !in multiset(s[1..]);
      }
    }
  }

  lemma RepeatCount<T>(s: seq<T>, i: nat, j: nat)
    requires i < j < |s| && s[i] == s[j]
    ensures multiset(s)[s[i]] >= 2
  {
    assert s == s[..j] + [s[j]] + s[j + 1..];
    assert s[i] == s[..j][i];
    assert s[i] in multiset(s[..j]);
  }

  /** A permutation of a sequence without repeats has no repeats. */
  lemma PermutationOfDistinct<T>(a: seq<T>, b: seq<T>)
    requires multiset(a) == multiset(b) && Distinct(a)
    ensures Distinct(b)
  {
    forall i, j | 0 <= i < j < |b|
      ensures b[i] != b[j]
    {
      if b[i] == b[j] {
        RepeatCount(b, i, j);
        DistinctCounts(a, b[i]);
      }
    }
  }

  /** The successful values in order, or the first error. */
  function Collect<T, E>(rs: seq<Result<T, E>>): Result<seq<T>, E> {
    if rs == [] then Ok([])
    else
      var n := |rs| - 1;
      var done := Collect(rs[..n]);
      if done.Err? then done
      else if rs[n].Err? then Err(rs[n].error)
      else Ok(done.value + [rs[n].value])
  }

  /** Collecting succeeds exactly when every result is a success, and then
      keeps every value in order. */
  lemma {:induction false} CollectOk<T, E>(rs: seq<Result<T, E>>)
    ensures Collect(rs).Ok? <==> forall i :: 0 <= i < |rs| ==> rs[i].Ok?
    ensures Collect(rs).Ok? ==> |Collect(rs).value| == |rs|
    ensures Collect(rs).Ok? ==> forall i :: 0 <= i < |rs| ==> Collect(rs).value[i] == rs[i].value
  {
    if rs != [] {
      var n := |rs| - 1;
      var init := rs[..n];
      CollectOk(init);
      assert forall i :: 0 <= i < n ==> init[i] == rs[i];
      var done := Collect(init);
      if done.Ok? && rs[n].Ok? {
        var all := done.value + [rs[n].value];
        assert forall i :: 0 <= i < n ==> all[i] == done.value[i];
      }
    }
  }

  /** Once a prefix fails, every longer prefix fails the same way. */
  lemma {:induction false} CollectErrorSticks<T, E>(rs: seq<Result<T, E>>, k: nat)
    requires k <= |rs| && Collect(rs[..k]).Err?
    ensures Collect(rs) == Collect(rs[..k])
    decreases |rs| - k
  {
    if k < |rs| {
      assert rs[..k + 1][..k] == rs[..k];
      CollectErrorSticks(rs, k + 1);
    } else {
      assert rs[..k] == rs;
    }
  }

  /** Moving the head of the remaining part onto the done part keeps their
      concatenation. */
  lemma ConcatStep<T>(done: seq<T>, head: seq<T>, rest: seq<T>, remaining: seq<T>, total: seq<T>)
    requires done + remaining == total
    requires remaining == head + rest
    ensures (done + head) + rest == total
  {
    assert done + (head + rest) == (done + head) + rest;
  }

  /** Appending an element that meets `p` at its position keeps every
      position meeting `p`. */
  lemma AppendKeeps<T>(prev: seq<T>, x: T, all: seq<T>, p: (nat, T) -> bool)
    requires forall k :: 0 <= k < |prev| ==> p(k, prev[k])
    requires p(|prev|, x)
    requires all == prev + [x]
    ensures forall k :: 0 <= k < |all| ==> p(k, all[k])
  {
    forall k | 0 <= k < |all|
      ensures p(k, all[k])
    {
      if k < |prev| { assert all[k] == prev[k]; }
    }
  }

  lemma CollectStep<T, E>(rs: seq<Result<T, E>>, i: nat)
    requires i < |rs| && Collect(rs[..i]).Ok?
    ensures Collect(rs[..i + 1]) ==
      if rs[i].Err? then Err(rs[i].error) else Ok(Collect(rs[..i]).value + [rs[i].value])
  {
    assert rs[..i + 1][..i] == rs[..i];
  }

  /** A failed collection reports the first error. */
  lemma CollectFirstError<T, E>(rs: seq<Result<T, E>>, i: nat)
    requires i < |rs| && rs[i].Err?
    requires forall j :: 0 <= j < i ==> rs[j].Ok?
    ensures Collect(rs) == Err(rs[i].error)
  {
    var head := rs[..i + 1];
    assert head[..i] == rs[..i];
    assert forall j :: 0 <= j < i ==> rs[..i][j] == rs[j];
    CollectOk(rs[..i]);
    CollectErrorSticks(rs, i + 1);
  }
}
