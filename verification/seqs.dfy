/** The LINQ sequence operators the controller is built from (`Where`,
    `FirstOrDefault`, a `Select` whose projection may throw), as pure
    functions over `seq`, and the concatenation of groups. */
module Seqs {
  import opened Wrappers

  /** `s.Where(p)`: the elements of `s` satisfying `p`, in their original
      order and with their original multiplicity. */
  function Filter<T(!new)>(s: seq<T>, p: T -> bool): (r: seq<T>)
    ensures |r| <= |s|
    ensures forall i :: 0 <= i < |r| ==> p(r[i]) && r[i] in s
  {
    if |s| == 0 then [] else (if p(s[0]) then [s[0]] else []) + Filter(s[1..], p)
  }

  lemma FilterCons<T(!new)>(x: T, s: seq<T>, p: T -> bool)
    ensures Filter([x] + s, p) == (if p(x) then [x] else []) + Filter(s, p)
  {
    assert ([x] + s)[1..] == s;
  }

  lemma FirstWhereCons<T(!new)>(x: T, s: seq<T>, p: T -> bool)
    ensures FirstWhere([x] + s, p) == if p(x) then Some(x) else FirstWhere(s, p)
  {
    assert ([x] + s)[1..] == s;
  }

  /** `Where` keeps exactly the elements that satisfy the predicate. */
  lemma {:induction false} FilterMembership<T(!new)>(s: seq<T>, p: T -> bool, x: T)
    ensures x in Filter(s, p) <==> x in s && p(x)
  {
    if |s| > 0 {
      FilterMembership(s[1..], p, x);
      assert s == [s[0]] + s[1..];
    }
  }

  /** `Where` keeps every selected element as often as it occurs, however
      the predicate was computed. */
  lemma {:induction false} FilterMultiplicity<T(!new)>(s: seq<T>, p: T -> bool, x: T)
    ensures multiset(Filter(s, p))[x] == if p(x) then multiset(s)[x] else 0
  {
    if |s| > 0 {
      FilterMultiplicity(s[1..], p, x);
      assert s == [s[0]] + s[1..];
    }
  }

  /** `Where` distributes over concatenation: the output follows the input order. */
  lemma {:induction false} FilterConcat<T(!new)>(a: seq<T>, b: seq<T>, p: T -> bool)
    ensures Filter(a + b, p) == Filter(a, p) + Filter(b, p)
  {
    if |a| == 0 {
      assert a + b == b;
    } else {
      assert (a + b)[1..] == a[1..] + b;
      FilterConcat(a[1..], b, p);
    }
  }

  /** Two predicates that agree on every element of `s` select the same elements. */
  lemma {:induction false} FilterCongruent<T(!new)>(s: seq<T>, p: T -> bool, q: T -> bool)
    requires forall i :: 0 <= i < |s| ==> p(s[i]) == q(s[i])
    ensures Filter(s, p) == Filter(s, q)
  {
    if |s| > 0 {
      FilterCongruent(s[1..], p, q);
    }
  }

  /** Keeping everything is the identity. */
  lemma {:induction false} FilterAll<T(!new)>(s: seq<T>, p: T -> bool)
    requires forall i :: 0 <= i < |s| ==> p(s[i])
    ensures Filter(s, p) == s
  {
    if |s| > 0 {
      FilterAll(s[1..], p);
    }
  }

  /** Keeping nothing is empty. */
  lemma {:induction false} FilterNone<T(!new)>(s: seq<T>, p: T -> bool)
    requires forall i :: 0 <= i < |s| ==> !p(s[i])
    ensures Filter(s, p) == []
  {
    if |s| > 0 {
      FilterNone(s[1..], p);
    }
  }

  /** `FirstOrDefault()`: the first element, or `None` for an empty sequence. */
  function Head<T>(s: seq<T>): Option<T> {
    if |s| == 0 then None else Some(s[0])
  }

  /** `s.Where(p).FirstOrDefault()`: the first element of `s`, in sequence
      order, that satisfies `p`. */
  function FirstWhere<T(!new)>(s: seq<T>, p: T -> bool): (r: Option<T>)
    ensures r.None? <==> forall i :: 0 <= i < |s| ==> !p(s[i])
    ensures r.Some? ==> exists i :: 0 <= i < |s| && s[i] == r.value && p(s[i])
                                   && forall j :: 0 <= j < i ==> !p(s[j])
  {
    if |s| == 0 then None
    else if p(s[0]) then Some(s[0])
    else
      var r := FirstWhere(s[1..], p);
      assert forall i :: 1 <= i < |s| ==> s[i] == s[1..][i - 1];
      r
  }

  /** Scanning for the first match is taking the head of the `Where`. */
  lemma {:induction false} FirstWhereIsHeadOfFilter<T(!new)>(s: seq<T>, p: T -> bool)
    ensures FirstWhere(s, p) == Head(Filter(s, p))
  {
    if |s| > 0 && !p(s[0]) {
      FirstWhereIsHeadOfFilter(s[1..], p);
    }
  }

  /** The groups of `g` laid end to end: how a table's grid is read back
      row by row. */
  function Flatten<T>(g: seq<seq<T>>): seq<T> {
    if |g| == 0 then [] else g[0] + Flatten(g[1..])
  }

  /** `s.Select(f)` where `f` may throw, enumerated in order: the first
      element whose projection fails aborts the enumeration with its error. */
  function MapResult<A, B, E>(s: seq<A>, f: A -> Result<B, E>): (r: Result<seq<B>, E>)
    ensures r.Success? <==> forall i :: 0 <= i < |s| ==> f(s[i]).Success?
    ensures r.Success? ==> |r.value| == |s| && forall i :: 0 <= i < |s| ==> f(s[i]) == Success(r.value[i])
    ensures r.Failure? ==> exists i :: 0 <= i < |s| && f(s[i]) == Failure(r.error)
                                       && forall j :: 0 <= j < i ==> f(s[j]).Success?
  {
    if |s| == 0 then Success([])
    else
      var head :- f(s[0]);
      var tail :- MapResult(s[1..], f);
      assert forall i :: 1 <= i < |s| ==> s[i] == s[1..][i - 1];
      Success([head] + tail)
  }
}
