/** The two `Array.prototype` searches the lyrics providers rely on. */
module Seqs {
  import opened Wrappers

  /** `s.find(p)`: the first element, in order, that satisfies `p`. */
  function Find<T>(s: seq<T>, p: T -> bool): (r: Option<T>)
    ensures r.Some? ==> exists i :: 0 <= i < |s| && s[i] == r.value && p(s[i])
                          && forall j :: 0 <= j < i ==> !p(s[j])
    ensures r.None? <==> forall j :: 0 <= j < |s| ==> !p(s[j])
  {
    if |s| == 0 then None
    else if p(s[0]) then Some(s[0])
    else
      var r := Find(s[1..], p);
      assert forall j :: 1 <= j < |s| ==> s[j] == s[1..][j - 1];
      r
  }

  /** `s.filter(p)`: the elements that satisfy `p`, in their order. */
  function Filter<T>(s: seq<T>, p: T -> bool): (r: seq<T>)
    ensures |r| <= |s|
    ensures forall i :: 0 <= i < |r| ==> r[i] in s && p(r[i])
    ensures forall i :: 0 <= i < |s| && p(s[i]) ==> s[i] in r
  {
    if |s| == 0 then []
    else
      var rest := Filter(s[1..], p);
      assert forall i :: 1 <= i < |s| ==> s[i] == s[1..][i - 1];
      if p(s[0]) then [s[0]] + rest else rest
  }

  /** Searching a filtered sequence is searching the original for the
      first element that passes both the filter and the search. */
  lemma {:induction false} FindAfterFilter<T>(s: seq<T>, p: T -> bool, q: T -> bool, both: T -> bool)
    requires forall x :: both(x) == (p(x) && q(x))
    ensures Find(Filter(s, p), q) == Find(s, both)
  {
    if |s| > 0 {
      FindAfterFilter(s[1..], p, q, both);
      var rest := Filter(s[1..], p);
      if p(s[0]) {
        assert Filter(s, p) == [s[0]] + rest;
        assert ([s[0]] + rest)[1..] == rest;
      }
    }
  }

  /** Searches with predicates that agree on the sequence agree. */
  lemma {:induction false} FindAgrees<T>(s: seq<T>, p: T -> bool, q: T -> bool)
    requires forall i :: 0 <= i < |s| ==> p(s[i]) == q(s[i])
    ensures Find(s, p) == Find(s, q)
  {
    if |s| > 0 {
      FindAgrees(s[1..], p, q);
    }
  }

  /** Maps `f` over `s` in order, stopping before the first element `f`
      yields `None` for. */
  function MapUntilNone<A, B>(s: seq<A>, f: A -> Option<B>): (r: seq<B>)
    ensures |r| <= |s|
    ensures forall i :: 0 <= i < |r| ==> f(s[i]) == Some(r[i])
    ensures |r| < |s| ==> f(s[|r|]).None?
  {
    if s == [] then []
    else
      match f(s[0])
      case None => []
      case Some(b) =>
        var rest := MapUntilNone(s[1..], f);
        assert forall i :: 0 <= i < |rest| ==> s[1..][i] == s[i + 1];
        [b] + rest
  }
}
