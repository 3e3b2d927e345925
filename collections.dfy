/** The two array library calls the stores rely on: `filter` and `findIndex` / `find`. */
module Collections {
  import opened Types

  /** `Array.prototype.findIndex`: the first position whose element satisfies `p`. */
  function FindIndex<T>(s: seq<T>, p: T -> bool): (r: Option<nat>)
    ensures r.None? <==> forall i :: 0 <= i < |s| ==> !p(s[i])
    ensures r.Some? ==> r.value < |s| && p(s[r.value]) && forall j :: 0 <= j < r.value ==> !p(s[j])
  {
    if s == [] then None
    else if p(s[0]) then Some(0)
    else match FindIndex(s[1..], p)
      case None => None
      case Some(k) => Some(k + 1)
  }

  /** `Array.prototype.filter`: the elements that satisfy `keep`, each as often as in `s`, in order. */
  function Filter<T(==,!new)>(s: seq<T>, keep: T -> bool): (r: seq<T>)
    ensures |r| <= |s|
    ensures forall i :: 0 <= i < |r| ==> keep(r[i])
    ensures forall i :: 0 <= i < |r| ==> r[i] in s
    ensures forall x :: multiset(r)[x] == if keep(x) then multiset(s)[x] else 0
  {
    if s == [] then []
    else
      assert s == [s[0]] + s[1..];
      if keep(s[0]) then [s[0]] + Filter(s[1..], keep) else Filter(s[1..], keep)
  }

  /** Concatenation associates around a single head element. */
  lemma ConsAppend<T>(x: T, p: seq<T>, q: seq<T>)
    ensures [x] + (p + q) == ([x] + p) + q
  {
  }

  /** One filtering step on a sequence written as a head and a rest. */
  lemma FilterCons<T(!new)>(x: T, s: seq<T>, keep: T -> bool)
    ensures Filter([x] + s, keep) == if keep(x) then [x] + Filter(s, keep) else Filter(s, keep)
  {
    assert ([x] + s)[1..] == s;
  }

  /** Filtering keeps the survivors in their original order: it distributes over
      concatenation. */
  lemma {:induction false} FilterAppend<T(!new)>(a: seq<T>, b: seq<T>, keep: T -> bool)
    ensures Filter(a + b, keep) == Filter(a, keep) + Filter(b, keep)
  {
    if a == [] {
      assert a + b == b;
    } else {
      var x, rest := a[0], a[1..];
      var fa, fb, fr := Filter(rest, keep), Filter(b, keep), Filter(rest + b, keep);
      assert Filter(a, keep) == if keep(x) then [x] + fa else fa by {
        assert a == [x] + rest;
        FilterCons(x, rest, keep);
      }
      assert Filter(a + b, keep) == if keep(x) then [x] + fr else fr by {
        assert a == [x] + rest;
        ConsAppend(x, rest, b);
        FilterCons(x, rest + b, keep);
      }
      assert fr == fa + fb by {
        FilterAppend(rest, b, keep);
      }
      ConsAppend(x, fa, fb);
    }
  }

  lemma FilterMembership<T(!new)>(s: seq<T>, keep: T -> bool, x: T)
    ensures x in Filter(s, keep) <==> x in s && keep(x)
  {
    var r := Filter(s, keep);
    assert x in r <==> multiset(r)[x] > 0;
    assert x in s <==> multiset(s)[x] > 0;
  }

  /** The first element kept is the first element of `s` that satisfies `keep`;
      nothing is kept exactly when no element satisfies it. */
  lemma {:induction false} FilterHead<T(!new)>(s: seq<T>, keep: T -> bool)
    ensures Filter(s, keep) == [] <==> forall i :: 0 <= i < |s| ==> !keep(s[i])
    ensures Filter(s, keep) != [] ==> FindIndex(s, keep).Some? && Filter(s, keep)[0] == s[FindIndex(s, keep).value]
  {
    if s == [] {
    } else if keep(s[0]) {
      assert Filter(s, keep) == [s[0]] + Filter(s[1..], keep);
    } else {
      var tail := s[1..];
      FilterHead(tail, keep);
      assert Filter(s, keep) == Filter(tail, keep);
      assert (forall i :: 0 <= i < |s| ==> !keep(s[i])) <==> (forall i :: 0 <= i < |tail| ==> !keep(tail[i])) by {
        forall i | 0 <= i < |tail| ensures tail[i] == s[i + 1] { }
      }
    }
  }
}
