/** Value wrappers and sequence helpers shared by the BED and VCF models. */
module Common {

  datatype Option<T> = None | Some(value: T)

  /** The outcome of a step that raises in synthia: `Err` carries what was raised. */
  datatype Result<T, E> = Ok(value: T) | Err(error: E)

  predicate NoDuplicates<T(==)>(s: seq<T>)
  {
    forall i, j :: 0 <= i < j < |s| ==> s[i] != s[j]
  }

  /** The elements of `s` satisfying `keep`, in order (a boolean-mask selection). */
  function Filter<T(!new)>(s: seq<T>, keep: T -> bool): (r: seq<T>)
    ensures forall x :: multiset(r)[x] == if keep(x) then multiset(s)[x] else 0
    ensures forall x :: x in r <==> x in s && keep(x)
    ensures |r| <= |s|
  {
    if |s| == 0 then []
    else
      var rest := Filter(s[1..], keep);
      assert s == [s[0]] + s[1..];
      if keep(s[0]) then [s[0]] + rest else rest
  }

  /** The selection distributes over concatenation: elements stay in their input order. */
  lemma {:induction false} FilterAppend<T(!new)>(s: seq<T>, t: seq<T>, keep: T -> bool)
    ensures Filter(s + t, keep) == Filter(s, keep) + Filter(t, keep)
    decreases |s|
  {
    if |s| == 0 {
      assert s + t == t;
    } else {
      assert (s + t)[1..] == s[1..] + t;
      FilterAppend(s[1..], t, keep);
    }
  }

  /** Keeps the first occurrence of every element, in order (`drop_duplicates()` with its default keep='first'). */
  function Dedup<T(==,!new)>(s: seq<T>): (r: seq<T>)
    ensures NoDuplicates(r)
    ensures forall x :: x in r <==> x in s
    ensures |r| <= |s|
  {
    if |s| == 0 then []
    else
      var d := Dedup(s[..|s| - 1]);
      var last := s[|s| - 1];
      assert forall x :: x in s <==> x in s[..|s| - 1] || x == last by {
        assert s == s[..|s| - 1] + [last];
      }
      if last in d then d else d + [last]
  }

  /** A sequence that already has no duplicates is left as it is, so deduplicating twice changes nothing. */
  lemma {:induction false} DedupOfDistinct<T(!new)>(s: seq<T>)
    requires NoDuplicates(s)
    ensures Dedup(s) == s
  {
    if |s| > 0 {
      var init := s[..|s| - 1];
      assert NoDuplicates(init);
      DedupOfDistinct(init);
      assert s[|s| - 1] !in init;
      assert init + [s[|s| - 1]] == s;
    }
  }

  /** In a sequence without duplicates every element occurs exactly once. */
  lemma {:induction false} DistinctCount<T>(s: seq<T>, x: T)
    requires NoDuplicates(s) && x in s
    ensures multiset(s)[x] == 1
  {
    assert s == [s[0]] + s[1..];
    assert NoDuplicates(s[1..]);
    if s[0] == x {
      assert x !in s[1..];
    } else {
      DistinctCount(s[1..], x);
    }
  }

  /** Concatenation of a sequence of sequences. */
  function Flatten<T(!new)>(ss: seq<seq<T>>): (r: seq<T>)
    ensures forall x :: x in r <==> exists i :: 0 <= i < |ss| && x in ss[i]
  {
    if |ss| == 0 then []
    else
      var rest := Flatten(ss[1..]);
      assert forall x :: (exists i :: 0 <= i < |ss| && x in ss[i]) ==> x in ss[0] || exists i :: 0 <= i < |ss[1..]| && x in ss[1..][i] by {
        forall x | exists i :: 0 <= i < |ss| && x in ss[i]
          ensures x in ss[0] || exists i :: 0 <= i < |ss[1..]| && x in ss[1..][i]
        {
          var i :| 0 <= i < |ss| && x in ss[i];
          if i > 0 { assert x in ss[1..][i - 1]; }
        }
      }
      ss[0] + rest
  }

  predicate SortedBy<T>(s: seq<T>, key: T -> nat)
  {
    forall i, j :: 0 <= i < j < |s| ==> key(s[i]) <= key(s[j])
  }

  /** An element no greater than any element of a sorted sequence can be put in front of it. */
  lemma SortedCons<T>(h: T, t: seq<T>, key: T -> nat)
    requires SortedBy(t, key)
    requires forall y :: y in t ==> key(h) <= key(y)
    ensures SortedBy([h] + t, key)
  {
    forall i, j | 0 <= i < j < |[h] + t| ensures key(([h] + t)[i]) <= key(([h] + t)[j]) {
      assert ([h] + t)[j] == t[j - 1];
      if i > 0 {
        assert ([h] + t)[i] == t[i - 1];
      }
    }
  }

  /** Inserts `x` before the first element whose key is not smaller. */
  function InsertBy<T(!new)>(x: T, s: seq<T>, key: T -> nat): (r: seq<T>)
    ensures multiset(r) == multiset(s) + multiset{x}
    ensures SortedBy(s, key) ==> SortedBy(r, key)
  {
    if |s| == 0 || key(x) <= key(s[0]) then
      assert SortedBy(s, key) ==> SortedBy([x] + s, key) by {
        if SortedBy(s, key) {
          SortedCons(x, s, key);
        }
      }
      [x] + s
    else
      var rest := InsertBy(x, s[1..], key);
      assert s == [s[0]] + s[1..];
      assert SortedBy(s, key) ==> SortedBy([s[0]] + rest, key) by {
        if SortedBy(s, key) {
          forall y | y in rest ensures key(s[0]) <= key(y) {
            assert y in multiset(rest);
            if y != x {
              assert y in multiset(s[1..]);
              assert y in s[1..];
              var j :| 0 <= j < |s[1..]| && s[1..][j] == y;
              assert s[j + 1] == y;
            }
          }
          SortedCons(s[0], rest, key);
        }
      }
      [s[0]] + rest
  }

  /** The first position in `lo..hi` satisfying `p`. */
  function FirstWhere(lo: nat, hi: nat, p: nat -> bool): (r: Option<nat>)
    requires lo <= hi
    ensures r.None? <==> forall j :: lo <= j <= hi ==> !p(j)
    ensures r.Some? ==> lo <= r.value <= hi && p(r.value)
    ensures r.Some? ==> forall k :: lo <= k < r.value ==> !p(k)
    decreases hi - lo
  {
    if p(lo) then Some(lo)
    else if lo == hi then None
    else FirstWhere(lo + 1, hi, p)
  }

  /** Insertion sort by `key`; elements with equal keys keep their relative order. */
  function SortBy<T(!new)>(s: seq<T>, key: T -> nat): (r: seq<T>)
    ensures multiset(r) == multiset(s)
    ensures SortedBy(r, key)
  {
    if |s| == 0 then []
    else
      assert s == [s[0]] + s[1..];
      InsertBy(s[0], SortBy(s[1..], key), key)
  }

  /** A permutation of a sequence without duplicates has none either. */
  lemma {:induction false} PermutationKeepsDistinct<T(!new)>(s: seq<T>, r: seq<T>)
    requires NoDuplicates(s) && multiset(r) == multiset(s)
    ensures NoDuplicates(r)
  {
    forall i, j | 0 <= i < j < |r| ensures r[i] != r[j] {
      if r[i] == r[j] {
        var x := r[i];
        assert r == r[..j] + [x] + r[j + 1..];
        assert x in r[..j];
        assert multiset(r)[x] >= 2 by {
          assert multiset(r) == multiset(r[..j]) + multiset{x} + multiset(r[j + 1..]);
        }
        DistinctCount(s, x);
        assert false;
      }
    }
  }

  /** Maps `f` over `xs` and concatenates the results, as a list comprehension does; the first
      item whose `f` fails makes the whole map fail with that error. */
  function ConcatMap<A, B(!new), E>(xs: seq<A>, f: A -> Result<seq<B>, E>): (r: Result<seq<B>, E>)
    ensures r.Ok? <==> forall j :: 0 <= j < |xs| ==> f(xs[j]).Ok?
    ensures r.Ok? ==> forall y :: y in r.value <==>
      exists j :: 0 <= j < |xs| && f(xs[j]).Ok? && y in f(xs[j]).value
    ensures r.Err? ==> exists j :: 0 <= j < |xs| && f(xs[j]) == Err(r.error) &&
                                  forall i :: 0 <= i < j ==> f(xs[i]).Ok?
  {
    if |xs| == 0 then Ok([])
    else
      assert forall j :: 0 <= j < |xs[1..]| ==> xs[1..][j] == xs[j + 1];
      match f(xs[0])
      case Err(e) => Err(e)
      case Ok(ys) =>
        match ConcatMap(xs[1..], f)
        case Err(e) =>
          ghost var j :| 0 <= j < |xs[1..]| && f(xs[1..][j]) == Err(e) && forall i :: 0 <= i < j ==> f(xs[1..][i]).Ok?;
          assert f(xs[j + 1]) == Err(e);
          Err(e)
        case Ok(rest) =>
          assert forall y :: y in rest ==> exists j :: 0 <= j < |xs| && f(xs[j]).Ok? && y in f(xs[j]).value by {
            forall y | y in rest ensures exists j :: 0 <= j < |xs| && f(xs[j]).Ok? && y in f(xs[j]).value {
              var j :| 0 <= j < |xs[1..]| && f(xs[1..][j]).Ok? && y in f(xs[1..][j]).value;
              assert xs[1..][j] == xs[j + 1];
            }
          }
          assert forall j, y :: 1 <= j < |xs| && f(xs[j]).Ok? && y in f(xs[j]).value ==> y in rest by {
            forall j, y | 1 <= j < |xs| && f(xs[j]).Ok? && y in f(xs[j]).value ensures y in rest {
              assert xs[1..][j - 1] == xs[j];
            }
          }
          Ok(ys + rest)
  }
}
