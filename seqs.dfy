/**
  The two ways the services scan a collection: `findOne`/`findById`, which
  return the first document in natural order that a condition accepts, and
  `find`/`countDocuments`, which keep every accepted document.
*/
module Seqs {
  import opened Wrappers

  /** Position of the first element that `p` accepts. */
  function IndexOf<T>(s: seq<T>, p: T -> bool): (r: Option<nat>)
    ensures r.Some? ==> r.value < |s| && p(s[r.value])
    ensures r.Some? ==> forall j :: 0 <= j < r.value ==> !p(s[j])
    ensures r.None? ==> forall i :: 0 <= i < |s| ==> !p(s[i])
  {
    if s == [] then None
    else if p(s[0]) then Some(0)
    else match IndexOf(s[1..], p)
      case None => None
      case Some(i) => Some(i + 1)
  }

  /** The first element that `p` accepts, as `findOne` returns it. */
  function FindFirst<T>(s: seq<T>, p: T -> bool): (r: Option<T>)
    ensures r.None? <==> forall x :: x in s ==> !p(x)
    ensures r.Some? ==> r.value in s && p(r.value)
  {
    match IndexOf(s, p)
    case None => None
    case Some(i) => Some(s[i])
  }

  /** When exactly one element is accepted, that element is the one found. */
  lemma {:induction false} FindFirstOnly<T>(s: seq<T>, p: T -> bool, x: T)
    requires x in s && p(x)
    requires forall y :: y in s && p(y) ==> y == x
    ensures FindFirst(s, p) == Some(x)
  {
  }

  /** The elements `p` accepts, each as often as in `s`, in their original order. */
  function Filter<T(!new)>(s: seq<T>, p: T -> bool): (r: seq<T>)
    ensures |r| <= |s|
    ensures forall i :: 0 <= i < |r| ==> p(r[i])
    ensures forall x {:trigger multiset(r)[x]} {:trigger multiset(s)[x]} :: p(x) ==> multiset(r)[x] == multiset(s)[x]
    ensures forall x {:trigger x in r} {:trigger x in s} :: x in r <==> x in s && p(x)
    ensures (forall i :: 0 <= i < |s| ==> p(s[i])) ==> r == s
  {
    if s == [] then []
    else
      var rest := Filter(s[1..], p);
      assert s == [s[0]] + s[1..];
      if p(s[0]) then [s[0]] + rest else rest
  }

  /**
    Filtering keeps the original order: filtering a concatenation is the
    concatenation of the filtered parts.
  */
  lemma {:induction false} FilterKeepsOrder<T(!new)>(s: seq<T>, t: seq<T>, p: T -> bool)
    ensures Filter(s + t, p) == Filter(s, p) + Filter(t, p)
  {
    if s == [] {
      assert s + t == t;
    } else {
      var head := if p(s[0]) then [s[0]] else [];
      assert (s + t)[0] == s[0] && (s + t)[1..] == s[1..] + t;
      FilterUnfold(s + t, p);
      FilterUnfold(s, p);
      FilterKeepsOrder(s[1..], t, p);
      assert head + (Filter(s[1..], p) + Filter(t, p)) == (head + Filter(s[1..], p)) + Filter(t, p);
    }
  }

  lemma FilterUnfold<T(!new)>(s: seq<T>, p: T -> bool)
    requires s != []
    ensures Filter(s, p) == (if p(s[0]) then [s[0]] else []) + Filter(s[1..], p)
  {
  }
}
