/**
 * The three array operations the modelled code relies on:
 * `Array.prototype.find`, `Array.prototype.filter` and `Array.prototype.map`,
 * all of which visit the elements in index order.
 */
module Seqs {
  import opened Wrappers

  /** `i` is the first index of `s` whose element satisfies `p`. */
  ghost predicate IsFirst<T>(s: seq<T>, p: T -> bool, i: int)
  {
    0 <= i < |s| && p(s[i]) && forall j :: 0 <= j < i ==> !p(s[j])
  }

  /** The index `find` stops at, if any. */
  function FirstIndex<T>(s: seq<T>, p: T -> bool): (r: Option<nat>)
    ensures r.Some? ==> IsFirst(s, p, r.value)
    ensures r.None? <==> forall i :: 0 <= i < |s| ==> !p(s[i])
  {
    if |s| == 0 then None
    else if p(s[0]) then Some(0)
    else
      match FirstIndex(s[1..], p)
      case None => None
      case Some(i) => Some(i + 1)
  }

  /** `s.find(p)`: the first element satisfying `p`, or `undefined`. */
  function Find<T>(s: seq<T>, p: T -> bool): (r: Option<T>)
    ensures r.None? <==> forall i :: 0 <= i < |s| ==> !p(s[i])
    ensures r.Some? ==> exists i :: IsFirst(s, p, i) && s[i] == r.value
  {
    match FirstIndex(s, p)
    case None => None
    case Some(i) => Some(s[i])
  }

  /** Whatever index is first, `find` returns the element there. */
  lemma FindIsFirst<T>(s: seq<T>, p: T -> bool, i: int)
    requires IsFirst(s, p, i)
    ensures Find(s, p) == Some(s[i])
  {
    assert Find(s, p).Some?;
    var k :| IsFirst(s, p, k) && s[k] == Find(s, p).value;
    assert k == i;
  }

  /** Searching a concatenation searches the left part first. */
  lemma FindConcat<T>(a: seq<T>, b: seq<T>, p: T -> bool)
    ensures Find(a + b, p) == if Find(a, p).Some? then Find(a, p) else Find(b, p)
  {
    var ab := a + b;
    if Find(a, p).Some? {
      var i :| IsFirst(a, p, i) && a[i] == Find(a, p).value;
      assert IsFirst(ab, p, i) by {
        forall j | 0 <= j <= i ensures ab[j] == a[j] { }
      }
      FindIsFirst(ab, p, i);
    } else if Find(b, p).Some? {
      var i :| IsFirst(b, p, i) && b[i] == Find(b, p).value;
      assert IsFirst(ab, p, |a| + i) by {
        forall j | 0 <= j <= |a| + i ensures ab[j] == if j < |a| then a[j] else b[j - |a|] { }
      }
      FindIsFirst(ab, p, |a| + i);
    } else {
      forall j | 0 <= j < |ab| ensures !p(ab[j]) {
        if j < |a| { assert ab[j] == a[j]; } else { assert ab[j] == b[j - |a|]; }
      }
    }
  }

  /** Concatenation is associative. */
  lemma AppendAssoc<T>(a: seq<T>, b: seq<T>, c: seq<T>)
    ensures (a + b) + c == a + (b + c)
  {
  }

  /** `s.filter(keep)`: the elements satisfying `keep`, in their original order. */
  function Filter<T>(s: seq<T>, keep: T -> bool): (r: seq<T>)
    ensures |r| <= |s|
    ensures forall i :: 0 <= i < |r| ==> keep(r[i])
  {
    if |s| == 0 then []
    else if keep(s[0]) then [s[0]] + Filter(s[1..], keep)
    else Filter(s[1..], keep)
  }

  /**
   * Filtering a concatenation filters each part in place: kept elements
   * stay in their input order, each as often as it occurs.
   */
  lemma {:induction false} FilterConcat<T>(a: seq<T>, b: seq<T>, keep: T -> bool)
    ensures Filter(a + b, keep) == Filter(a, keep) + Filter(b, keep)
  {
    if |a| > 0 {
      assert (a + b)[1..] == a[1..] + b;
      FilterConcat(a[1..], b, keep);
    } else {
      assert a + b == b;
    }
  }

  /** `filter` drops nothing that passes and invents nothing. */
  lemma {:induction false} FilterMembership<T>(s: seq<T>, keep: T -> bool)
    ensures forall i :: 0 <= i < |Filter(s, keep)| ==> Filter(s, keep)[i] in s
    ensures forall i :: 0 <= i < |s| && keep(s[i]) ==> s[i] in Filter(s, keep)
  {
    if |s| > 0 {
      FilterMembership(s[1..], keep);
      var r := Filter(s, keep);
      var r' := Filter(s[1..], keep);
      forall i | 0 <= i < |r| ensures r[i] in s {
        if keep(s[0]) && i == 0 {
        } else {
          var k := if keep(s[0]) then i - 1 else i;
          assert r[i] == r'[k];
          assert r'[k] in s[1..];
        }
      }
      forall i | 0 <= i < |s| && keep(s[i]) ensures s[i] in r {
        if i > 0 {
          assert s[i] == s[1..][i - 1];
        }
      }
    }
  }

  /**
   * Two filters in a row keep an element exactly when it passes both, and
   * the first element they keep is the first element of `s` passing both:
   * the order of `s` is what decides.
   */
  lemma {:induction false} FilterFilterHead<T>(s: seq<T>, p: T -> bool, q: T -> bool)
    ensures var r := Filter(Filter(s, p), q);
      && (|r| == 0 <==> forall i :: 0 <= i < |s| ==> !(p(s[i]) && q(s[i])))
      && (|r| > 0 ==> exists i :: IsFirst(s, (x: T) => p(x) && q(x), i) && r[0] == s[i])
  {
    if |s| > 0 {
      var both := (x: T) => p(x) && q(x);
      FilterFilterHead(s[1..], p, q);
      var r := Filter(Filter(s, p), q);
      var r' := Filter(Filter(s[1..], p), q);
      if p(s[0]) && q(s[0]) {
        assert r[0] == s[0];
        assert IsFirst(s, both, 0);
      } else {
        assert r == r';
        if |r'| > 0 {
          var i :| IsFirst(s[1..], both, i) && r'[0] == s[1..][i];
          assert IsFirst(s, both, i + 1);
        }
      }
    }
  }

  /** `s.map(f)`: same length, same order, each element transformed. */
  function Map<A, B>(s: seq<A>, f: A -> B): (r: seq<B>)
    ensures |r| == |s|
    ensures forall i :: 0 <= i < |s| ==> r[i] == f(s[i])
  {
    if |s| == 0 then [] else [f(s[0])] + Map(s[1..], f)
  }
}
